/** `upcoming.sort(key=lambda x: x["kickoffISO"] or "")`: Python's list sort is stable, so the
    result is the unique arrangement that is ordered by kick-off text and keeps fixtures with the
    same kick-off text in their original order. */
module KickoffSort {
  import opened PyText
  import opened Seqs
  import opened Fixtures

  /** The sort key: the ISO kick-off text, with a missing one read as "". */
  function KickoffKey(m: Match): string {
    m.kickoffISO.GetOr("")
  }

  /** Non-decreasing by kick-off text under Python's string order. */
  predicate SortedByKickoff(s: seq<Match>) {
    forall i, j :: 0 <= i < j < |s| ==> StrLe(KickoffKey(s[i]), KickoffKey(s[j]))
  }

  /** The test "kicks off at `k`". */
  function AtKickoff(k: string): Match -> bool {
    (m: Match) => KickoffKey(m) == k
  }

  /** The fixtures of `s` whose kick-off text is `k`, in the order of `s`. */
  function SameKickoff(s: seq<Match>, k: string): seq<Match> {
    Filter(s, AtKickoff(k))
  }

  /** Puts `x` in front of the first fixture that does not kick off strictly earlier. */
  function InsertByKickoff(x: Match, t: seq<Match>): (r: seq<Match>)
    ensures multiset(r) == multiset{x} + multiset(t)
  {
    if t == [] || StrLe(KickoffKey(x), KickoffKey(t[0])) then [x] + t
    else
      assert t == [t[0]] + t[1..];
      [t[0]] + InsertByKickoff(x, t[1..])
  }

  /** The stable sort by kick-off text. */
  function SortByKickoff(s: seq<Match>): seq<Match> {
    if s == [] then [] else InsertByKickoff(s[0], SortByKickoff(s[1..]))
  }

  lemma {:induction false} InsertKeepsSorted(x: Match, t: seq<Match>)
    requires SortedByKickoff(t)
    ensures SortedByKickoff(InsertByKickoff(x, t))
    decreases |t|
  {
    var r := InsertByKickoff(x, t);
    if t == [] || StrLe(KickoffKey(x), KickoffKey(t[0])) {
      forall i, j | 0 <= i < j < |r| ensures StrLe(KickoffKey(r[i]), KickoffKey(r[j])) {
        if i == 0 && j > 1 {
          StrLeTransitive(KickoffKey(x), KickoffKey(t[0]), KickoffKey(t[j - 1]));
        }
      }
    } else {
      var rest := InsertByKickoff(x, t[1..]);
      InsertKeepsSorted(x, t[1..]);
      StrLeTotal(KickoffKey(x), KickoffKey(t[0]));
      forall j | 0 <= j < |rest| ensures StrLe(KickoffKey(t[0]), KickoffKey(rest[j])) {
        assert rest[j] in multiset(rest);
        if rest[j] != x {
          assert rest[j] in t[1..];
          var m :| 0 <= m < |t[1..]| && t[1..][m] == rest[j];
          assert t[m + 1] == rest[j];
        }
      }
      assert r == [t[0]] + rest;
    }
  }

  /** Sorting arranges the fixtures by kick-off text. */
  lemma {:induction false} SortIsSorted(s: seq<Match>)
    ensures SortedByKickoff(SortByKickoff(s))
  {
    if s != [] {
      SortIsSorted(s[1..]);
      InsertKeepsSorted(s[0], SortByKickoff(s[1..]));
    }
  }

  /** Sorting neither drops nor duplicates a fixture. */
  lemma {:induction false} SortPermutes(s: seq<Match>)
    ensures multiset(SortByKickoff(s)) == multiset(s)
  {
    if s != [] {
      SortPermutes(s[1..]);
      assert s == [s[0]] + s[1..];
    }
  }

  lemma {:induction false} InsertSameKickoff(x: Match, t: seq<Match>, k: string)
    ensures SameKickoff(InsertByKickoff(x, t), k) == (if KickoffKey(x) == k then [x] else []) + SameKickoff(t, k)
    decreases |t|
  {
    var p := AtKickoff(k);
    if t == [] || StrLe(KickoffKey(x), KickoffKey(t[0])) {
      calc {
        SameKickoff(InsertByKickoff(x, t), k);
        Filter([x] + t, p);
        { FilterAppend([x], t, p); }
        Filter([x], p) + Filter(t, p);
        { FilterSingleton(x, p); }
        (if KickoffKey(x) == k then [x] else []) + SameKickoff(t, k);
      }
    } else {
      InsertBehindEarlier(x, t, k);
    }
  }

  /** Inserting behind a fixture that kicks off strictly earlier leaves that fixture's key group alone. */
  lemma {:induction false} InsertBehindEarlier(x: Match, t: seq<Match>, k: string)
    requires t != [] && !StrLe(KickoffKey(x), KickoffKey(t[0]))
    ensures SameKickoff(InsertByKickoff(x, t), k) == (if KickoffKey(x) == k then [x] else []) + SameKickoff(t, k)
    decreases |t|, 0
  {
    var p := AtKickoff(k);
    var rest := InsertByKickoff(x, t[1..]);
    var head := if KickoffKey(x) == k then [x] else [];
    var front := Filter([t[0]], p);
    // t[0] kicks off strictly earlier than x, so it is never grouped with x
    assert front == [] || head == [] by {
      StrLeReflexive(KickoffKey(x));
      FilterSingleton(t[0], p);
    }
    calc {
      SameKickoff(InsertByKickoff(x, t), k);
      { assert InsertByKickoff(x, t) == [t[0]] + rest; }
      Filter([t[0]] + rest, p);
      { FilterAppend([t[0]], rest, p); }
      front + Filter(rest, p);
      { InsertSameKickoff(x, t[1..], k); }
      front + (head + Filter(t[1..], p));
      head + (front + Filter(t[1..], p));
      { TailSameKickoff(t, k); }
      head + SameKickoff(t, k);
    }
  }

  lemma TailSameKickoff(t: seq<Match>, k: string)
    requires t != []
    ensures SameKickoff(t, k) == Filter([t[0]], AtKickoff(k)) + SameKickoff(t[1..], k)
  {
    assert t == [t[0]] + t[1..];
    FilterAppend([t[0]], t[1..], AtKickoff(k));
  }

  /** Sorting is stable: the fixtures sharing a kick-off text keep their relative order. */
  lemma {:induction false} SortIsStable(s: seq<Match>, k: string)
    ensures SameKickoff(SortByKickoff(s), k) == SameKickoff(s, k)
  {
    if s != [] {
      var p := AtKickoff(k);
      var head := if KickoffKey(s[0]) == k then [s[0]] else [];
      calc {
        SameKickoff(SortByKickoff(s), k);
        SameKickoff(InsertByKickoff(s[0], SortByKickoff(s[1..])), k);
        { InsertSameKickoff(s[0], SortByKickoff(s[1..]), k); }
        head + SameKickoff(SortByKickoff(s[1..]), k);
        { SortIsStable(s[1..], k); }
        head + Filter(s[1..], p);
        { FilterSingleton(s[0], p); }
        Filter([s[0]], p) + Filter(s[1..], p);
        { FilterAppend([s[0]], s[1..], p); assert s == [s[0]] + s[1..]; }
        SameKickoff(s, k);
      }
    }
  }

  /** The first fixture of a sorted sequence with key `k` present comes first among those at `k`,
      and its key is the smallest. */
  lemma SortedHeadIsFirstAtKey(a: seq<Match>)
    requires a != [] && SortedByKickoff(a)
    ensures SameKickoff(a, KickoffKey(a[0])) == [a[0]] + SameKickoff(a[1..], KickoffKey(a[0]))
  {
    var p := AtKickoff(KickoffKey(a[0]));
    assert a == [a[0]] + a[1..];
    FilterAppend([a[0]], a[1..], p);
    FilterSingleton(a[0], p);
  }

  /** Two arrangements that are both sorted by kick-off text and both keep, for every kick-off
      text, the same fixtures in the same order, are the same arrangement. */
  lemma {:induction false} SortedStableUnique(a: seq<Match>, b: seq<Match>)
    requires SortedByKickoff(a) && SortedByKickoff(b)
    requires forall k :: SameKickoff(a, k) == SameKickoff(b, k)
    ensures a == b
    decreases |a|
  {
    if a == [] || b == [] {
      // an element on one side would have to show up in its key group on the other
      if a != [] {
        assert SameKickoff(b, KickoffKey(a[0])) == [];
        HeadInOwnKey(a);
      } else if b != [] {
        assert SameKickoff(a, KickoffKey(b[0])) == [];
        HeadInOwnKey(b);
      }
    } else {
      var ka, kb := KickoffKey(a[0]), KickoffKey(b[0]);
      // a's head key occurs in b, so b's head key is no larger; and the other way round
      HeadInOwnKey(a);
      HeadInOwnKey(b);
      assert SameKickoff(a, ka) == SameKickoff(b, ka);
      assert SameKickoff(a, kb) == SameKickoff(b, kb);
      LeastKeyAtHead(b, ka);
      LeastKeyAtHead(a, kb);
      StrLeAntisymmetric(ka, kb);
      SortedHeadIsFirstAtKey(a);
      SortedHeadIsFirstAtKey(b);
      assert a[0] == SameKickoff(a, ka)[0] == SameKickoff(b, kb)[0] == b[0];
      var pa := AtKickoff(ka);
      forall k ensures SameKickoff(a[1..], k) == SameKickoff(b[1..], k) {
        var pk := AtKickoff(k);
        assert a == [a[0]] + a[1..] && b == [b[0]] + b[1..];
        FilterAppend([a[0]], a[1..], pk);
        FilterAppend([b[0]], b[1..], pk);
        FilterSingleton(a[0], pk);
        FilterSingleton(b[0], pk);
        var front := Filter([a[0]], pk);
        assert SameKickoff(a, k) == front + SameKickoff(a[1..], k);
        assert SameKickoff(b, k) == front + SameKickoff(b[1..], k);
        assert SameKickoff(a, k) == SameKickoff(b, k);
        assert SameKickoff(a[1..], k) == SameKickoff(a, k)[|front|..];
        assert SameKickoff(b[1..], k) == SameKickoff(b, k)[|front|..];
      }
      SortedByKickoffTail(a);
      SortedByKickoffTail(b);
      SortedStableUnique(a[1..], b[1..]);
      assert a == [a[0]] + a[1..] && b == [b[0]] + b[1..];
    }
  }

  lemma SortedByKickoffTail(a: seq<Match>)
    requires a != [] && SortedByKickoff(a)
    ensures SortedByKickoff(a[1..])
  {
    forall i, j | 0 <= i < j < |a| - 1 ensures StrLe(KickoffKey(a[1..][i]), KickoffKey(a[1..][j])) {
      assert a[1..][i] == a[i + 1] && a[1..][j] == a[j + 1];
    }
  }

  lemma HeadInOwnKey(a: seq<Match>)
    requires a != []
    ensures SameKickoff(a, KickoffKey(a[0])) != []
  {
    var p := AtKickoff(KickoffKey(a[0]));
    FilterMembership(a, p);
    assert a[0] in Filter(a, p);
  }

  /** If some fixture of a sorted sequence has key `k`, the head's key is at most `k`. */
  lemma LeastKeyAtHead(b: seq<Match>, k: string)
    requires b != [] && SortedByKickoff(b)
    requires SameKickoff(b, k) != []
    ensures StrLe(KickoffKey(b[0]), k)
  {
    {
      var p := AtKickoff(k);
      FilterMembership(b, p);
      var x := SameKickoff(b, k)[0];
      assert x in Filter(b, p);
      var j :| 0 <= j < |b| && b[j] == x;
      assert KickoffKey(b[j]) == k;
      if j == 0 { StrLeReflexive(k); }
    }
  }

  /** The stable sort by kick-off text: ordered, a permutation, stable, and the only arrangement
      with those properties, so any stable sort (such as Python's) gives the same list. */
  lemma SortByKickoffCorrect(s: seq<Match>)
    ensures SortedByKickoff(SortByKickoff(s))
    ensures multiset(SortByKickoff(s)) == multiset(s)
    ensures forall k :: SameKickoff(SortByKickoff(s), k) == SameKickoff(s, k)
    ensures forall r :: SortedByKickoff(r) && (forall k :: SameKickoff(r, k) == SameKickoff(s, k)) ==> r == SortByKickoff(s)
  {
    SortIsSorted(s);
    SortPermutes(s);
    forall k ensures SameKickoff(SortByKickoff(s), k) == SameKickoff(s, k) {
      SortIsStable(s, k);
    }
    forall r | SortedByKickoff(r) && (forall k :: SameKickoff(r, k) == SameKickoff(s, k))
      ensures r == SortByKickoff(s)
    {
      SortedStableUnique(r, SortByKickoff(s));
    }
  }
}
