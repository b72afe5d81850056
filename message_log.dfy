/**
 * The server's bounded message history (`messageHistory`): each accepted
 * message is pushed at the tail and, when that makes the log longer than
 * its capacity, the single oldest entry is shifted off the head.
 */
module MessageLog {

  /** The bound written into the server: `messageHistory.length > 100`. */
  const Capacity: nat := 100

  /** The most recent `n` entries of `s`, oldest first. */
  function LastN<T>(s: seq<T>, n: nat): (r: seq<T>)
    ensures |r| == if |s| <= n then |s| else n
    ensures r == s[|s| - |r|..]
  {
    if |s| <= n then s else s[|s| - n..]
  }

  /** One `push` followed by at most one `shift`, as the send handler does:
      a log within its bound keeps exactly its most recent `cap` entries. */
  function Push<T>(h: seq<T>, m: T, cap: nat): (r: seq<T>)
    ensures |h| <= cap ==> r == LastN(h + [m], cap)
  {
    var t := h + [m];
    if |t| > cap then t[1..] else t
  }

  /** Below the bound a push only appends; at the bound it also drops the
      single oldest entry. The new message is always the last entry, and
      the log never grows past the bound. */
  lemma PushEvictsOldest<T>(h: seq<T>, m: T, cap: nat)
    requires 1 <= cap && |h| <= cap
    ensures |h| < cap ==> Push(h, m, cap) == h + [m]
    ensures |h| == cap ==> Push(h, m, cap) == h[1..] + [m]
    ensures 1 <= |Push(h, m, cap)| <= cap
    ensures Push(h, m, cap)[|Push(h, m, cap)| - 1] == m
  {
    if |h| == cap {
      assert (h + [m])[1..] == h[1..] + [m];
    }
  }

  /** The history after a sequence of accepted sends, one `Push` each. */
  function PushAll<T>(h: seq<T>, ms: seq<T>, cap: nat): (r: seq<T>)
    decreases ms
  {
    if ms == [] then h else PushAll(Push(h, ms[0], cap), ms[1..], cap)
  }

  /** Truncating to the last `n` entries before appending more changes
      nothing about the last `n` entries afterwards. */
  lemma LastNAbsorbs<T>(s: seq<T>, t: seq<T>, n: nat)
    ensures LastN(LastN(s, n) + t, n) == LastN(s + t, n)
  {
    if |s| > n {
      var k := |s| - n;
      var u := LastN(s, n);
      assert u + t == (s + t)[k..];
      assert LastN(u + t, n) == (u + t)[|t|..];
      assert ((s + t)[k..])[|t|..] == (s + t)[k + |t|..];
    }
  }

  /** After any number of sends into a log within its bound, the log holds
      exactly the most recent `cap` entries in arrival order. */
  lemma {:induction false} PushAllKeepsMostRecent<T>(h: seq<T>, ms: seq<T>, cap: nat)
    requires |h| <= cap
    ensures PushAll(h, ms, cap) == LastN(h + ms, cap)
    ensures |PushAll(h, ms, cap)| <= cap
    decreases ms
  {
    if ms != [] {
      var h' := Push(h, ms[0], cap);
      assert h' == LastN(h + [ms[0]], cap) && |h'| <= cap;
      PushAllKeepsMostRecent(h', ms[1..], cap);
      LastNAbsorbs(h + [ms[0]], ms[1..], cap);
      assert h + ms == (h + [ms[0]]) + ms[1..];
      calc {
        PushAll(h, ms, cap);
        PushAll(h', ms[1..], cap);
        LastN(LastN(h + [ms[0]], cap) + ms[1..], cap);
        LastN(h + ms, cap);
      }
    }
  }

  /** Starting from the single seed message, the seed stays at the head
      while fewer than `cap` messages have been sent, and is the first entry
      evicted: once `cap` or more have been sent the log is exactly the last
      `cap` of them. */
  lemma SeedEvictedFirst<T>(seed: T, ms: seq<T>, cap: nat)
    requires cap >= 1
    ensures |ms| < cap ==> PushAll([seed], ms, cap) == [seed] + ms
    ensures |ms| >= cap ==> PushAll([seed], ms, cap) == ms[|ms| - cap..]
  {
    PushAllKeepsMostRecent([seed], ms, cap);
    if |ms| >= cap {
      assert ([seed] + ms)[|ms| + 1 - cap..] == ms[|ms| - cap..];
    }
  }
}
