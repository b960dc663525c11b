/** Facts about sequences without repetitions, and the first-occurrence
    deduplication that both the visited-directory order and the tag order
    of the walk follow. */
module Seqs {

  /** No value occurs twice in `s`. */
  predicate NoDup<T(==)>(s: seq<T>) {
    forall i, j :: 0 <= i < j < |s| ==> s[i] != s[j]
  }

  /** The position at which `x` first occurs in `s`. */
  function FirstIndex<T(==)>(s: seq<T>, x: T): (i: nat)
    requires x in s
    ensures i < |s| && s[i] == x
    ensures x !in s[..i]
  {
    if s[0] == x then 0
    else
      var k := FirstIndex(s[1..], x);
      assert s[..k + 1] == [s[0]] + s[1..][..k];
      k + 1
  }

  /** A position holding `x` with no `x` before it is the first index. */
  lemma FirstIndexUnique<T>(s: seq<T>, x: T, i: nat)
    requires i < |s| && s[i] == x && x !in s[..i]
    ensures FirstIndex(s, x) == i
  {
  }

  /** Keeps the first occurrence of every value of `s` and drops the later
      ones: the fold "append unless already seen". */
  function Dedup<T(==)>(s: seq<T>): (r: seq<T>)
    ensures NoDup(r)
    ensures forall i :: 0 <= i < |r| ==> r[i] in s
    ensures forall i :: 0 <= i < |s| ==> s[i] in r
  {
    if |s| == 0 then []
    else
      var init := s[..|s| - 1];
      var last := s[|s| - 1];
      assert s == init + [last];
      var p := Dedup(init);
      if last in p then p else p + [last]
  }

  /** Appending one value to the input appends it to the output exactly when
      it is new. */
  lemma DedupSnoc<T>(s: seq<T>, x: T)
    ensures Dedup(s + [x]) == if x in s then Dedup(s) else Dedup(s) + [x]
  {
    assert (s + [x])[..|s|] == s;
  }

  /** The first value of the input is the first value of the output. */
  lemma {:induction false} DedupHead<T>(s: seq<T>)
    requires |s| > 0
    ensures |Dedup(s)| > 0 && Dedup(s)[0] == s[0]
  {
    if |s| > 1 {
      var init := s[..|s| - 1];
      assert s == init + [s[|s| - 1]];
      DedupHead(init);
      DedupSnoc(init, s[|s| - 1]);
    }
  }

  /** `r` holds values of `s`, each once, ordered by where they first occur
      in `s`. */
  ghost predicate InFirstOccurrenceOrder<T>(s: seq<T>, r: seq<T>) {
    && (forall i :: 0 <= i < |r| ==> r[i] in s)
    && NoDup(r)
    && (forall i, j :: 0 <= i < j < |r| ==> FirstIndex(s, r[i]) < FirstIndex(s, r[j]))
  }

  /** `r` lists every distinct value of `s` exactly once, in order of first
      occurrence: the declarative reading of `Dedup`. */
  ghost predicate FirstOccurrences<T>(s: seq<T>, r: seq<T>) {
    && InFirstOccurrenceOrder(s, r)
    && (forall i :: 0 <= i < |s| ==> s[i] in r)
  }

  /** A value's first position is the same in any extension of a prefix
      that already holds it. */
  lemma FirstIndexPrefix<T>(t: seq<T>, s: seq<T>, y: T)
    requires t <= s && y in t
    ensures FirstIndex(s, y) == FirstIndex(t, y)
  {
    var k := FirstIndex(t, y);
    assert s[..k] == t[..k];
    FirstIndexUnique(s, y, k);
  }

  /** First-occurrence order with respect to a prefix is first-occurrence
      order with respect to any extension of it. */
  lemma OrderExtends<T>(t: seq<T>, s: seq<T>, r: seq<T>)
    requires t <= s && InFirstOccurrenceOrder(t, r)
    ensures InFirstOccurrenceOrder(s, r)
  {
    forall i | 0 <= i < |r|
      ensures r[i] in s && FirstIndex(s, r[i]) == FirstIndex(t, r[i])
    {
      FirstIndexPrefix(t, s, r[i]);
    }
  }

  /** Appending a value that first occurs after every value of `r` keeps
      first-occurrence order. */
  lemma OrderSnoc<T>(s: seq<T>, r: seq<T>, x: T)
    requires InFirstOccurrenceOrder(s, r) && x in s && x !in r
    requires forall i :: 0 <= i < |r| ==> FirstIndex(s, r[i]) < FirstIndex(s, x)
    ensures InFirstOccurrenceOrder(s, r + [x])
  {
    var r' := r + [x];
    forall i, j | 0 <= i < j < |r'|
      ensures FirstIndex(s, r'[i]) < FirstIndex(s, r'[j])
    {
      assert r'[i] == r[i];
    }
  }

  /** Dedup meets the declarative description. */
  lemma {:induction false} DedupIsFirstOccurrences<T>(s: seq<T>)
    ensures FirstOccurrences(s, Dedup(s))
  {
    if |s| > 0 {
      var init := s[..|s| - 1];
      var last := s[|s| - 1];
      assert s == init + [last];
      DedupIsFirstOccurrences(init);
      var p := Dedup(init);
      OrderExtends(init, s, p);
      DedupSnoc(init, last);
      if last !in init {
        assert s[..|init|] == init;
        FirstIndexUnique(s, last, |init|);
        forall i | 0 <= i < |p|
          ensures FirstIndex(s, p[i]) < FirstIndex(s, last)
        {
          FirstIndexPrefix(init, s, p[i]);
        }
        OrderSnoc(s, p, last);
      }
    }
  }

  /** Dropping the last value of a repetition-free sequence drops exactly
      that value. */
  lemma InitMembership<T>(r: seq<T>)
    requires NoDup(r) && |r| > 0
    ensures NoDup(r[..|r| - 1])
    ensures forall x :: x in r[..|r| - 1] <==> x in r && x != r[|r| - 1]
  {
    var p := r[..|r| - 1];
    assert r == p + [r[|r| - 1]];
    forall x | x in r && x != r[|r| - 1]
      ensures x in p
    {
      var i :| 0 <= i < |r| && r[i] == x;
      assert p[i] == x;
    }
  }

  /** A repetition-free sequence has as many elements as values. */
  lemma {:induction false} NoDupCard<T>(v: seq<T>)
    requires NoDup(v)
    ensures |set y | y in v| == |v|
  {
    if |v| > 0 {
      var init := v[..|v| - 1];
      var last := v[|v| - 1];
      assert v == init + [last];
      InitMembership(v);
      NoDupCard(init);
      assert (set y | y in v) == (set y | y in init) + {last};
    }
  }

  /** The last value of a sequence in first-occurrence order is the one that
      occurs latest in `s`. */
  lemma LastOccursLatest<T>(s: seq<T>, r: seq<T>)
    requires InFirstOccurrenceOrder(s, r) && |r| > 0
    ensures forall x :: x in r ==> x in s && FirstIndex(s, x) <= FirstIndex(s, r[|r| - 1])
  {
    forall x | x in r
      ensures x in s && FirstIndex(s, x) <= FirstIndex(s, r[|r| - 1])
    {
      var k :| 0 <= k < |r| && r[k] == x;
      if k < |r| - 1 {
        assert FirstIndex(s, r[k]) < FirstIndex(s, r[|r| - 1]);
      }
    }
  }

  /** Two non-empty sequences in first-occurrence order of the same `s`
      holding the same values end with the same value. */
  lemma SameLast<T>(s: seq<T>, r: seq<T>, r': seq<T>)
    requires InFirstOccurrenceOrder(s, r) && InFirstOccurrenceOrder(s, r')
    requires forall x :: x in r <==> x in r'
    requires |r| > 0 && |r'| > 0
    ensures r[|r| - 1] == r'[|r'| - 1]
  {
    var m := r[|r| - 1];
    var m' := r'[|r'| - 1];
    assert m in r && m' in r';
    LastOccursLatest(s, r);
    LastOccursLatest(s, r');
    assert FirstIndex(s, m) == FirstIndex(s, m');
  }

  /** Two repetition-free sequences with the same values and the same last
      value keep the same values once that last value is dropped. */
  lemma SameInits<T>(r: seq<T>, r': seq<T>, p: seq<T>, p': seq<T>)
    requires NoDup(r) && NoDup(r') && |r| > 0 && |r'| > 0
    requires forall x :: x in r <==> x in r'
    requires r[|r| - 1] == r'[|r'| - 1]
    requires p == r[..|r| - 1] && p' == r'[..|r'| - 1]
    ensures NoDup(p) && NoDup(p')
    ensures forall x :: x in p <==> x in p'
  {
    InitMembership(r);
    InitMembership(r');
    forall x
      ensures x in p <==> x in p'
    {
      assert x in p <==> x in r && x != r[|r| - 1];
      assert x in p' <==> x in r' && x != r'[|r'| - 1];
    }
  }

  /** Two sequences in first-occurrence order of the same `s` holding the
      same values are equal. */
  lemma {:induction false} FirstOccurrenceOrderUnique<T>(s: seq<T>, r: seq<T>, r': seq<T>)
    requires InFirstOccurrenceOrder(s, r) && InFirstOccurrenceOrder(s, r')
    requires forall x :: x in r <==> x in r'
    ensures r == r'
    decreases |r|
  {
    if |r| > 0 {
      assert r[0] in r;
    }
    if |r'| > 0 {
      assert r'[0] in r';
    }
    if |r| > 0 && |r'| > 0 {
      var m := r[|r| - 1];
      var m' := r'[|r'| - 1];
      var p := r[..|r| - 1];
      var p' := r'[..|r'| - 1];
      SameLast(s, r, r');
      SameInits(r, r', p, p');
      FirstOccurrenceOrderUnique(s, p, p');
      assert r == p + [m];
      assert r' == p' + [m'];
    }
  }

  /** The first-occurrence order of `s` has exactly one solution, and it is
      `Dedup(s)`. */
  lemma DedupCharacterization<T>(s: seq<T>, r: seq<T>)
    ensures FirstOccurrences(s, r) <==> r == Dedup(s)
  {
    DedupIsFirstOccurrences(s);
    if FirstOccurrences(s, r) {
      FirstOccurrenceOrderUnique(s, r, Dedup(s));
    }
  }
}
