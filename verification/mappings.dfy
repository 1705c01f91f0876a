/**
 * Replacement tables of the maintenance scripts: Python dictionaries from a Chinese name or word
 * to its English replacement, kept as sequences of pairs so that their insertion order, the order
 * in which the scripts visit them, is part of the model.
 */
module Mappings {
  import opened Options
  import opened Strings

  /** A replacement table: (key, value) pairs in insertion order. */
  type Table = seq<(string, string)>

  /** `k` is a key of `m` (Python `k in m`). */
  predicate IsKey(m: Table, k: string) {
    exists i | 0 <= i < |m| :: m[i].0 == k
  }

  /** The value of the first entry whose key is `k` (Python `m[k]` on a dictionary). */
  function Lookup(m: Table, k: string): (r: Option<string>)
    ensures r.None? <==> !IsKey(m, k)
    ensures r.Some? ==> (k, r.value) in m
    decreases |m|
  {
    if |m| == 0 then None
    else if m[0].0 == k then Some(m[0].1)
    else Lookup(m[1..], k)
  }

  /** With unique keys, the entry `(k, v)` of the table is what looking up `k` finds. */
  lemma {:induction false} LookupUnique(m: Table, i: nat)
    requires i < |m|
    requires forall a, b | 0 <= a < b < |m| :: m[a].0 != m[b].0
    ensures Lookup(m, m[i].0) == Some(m[i].1)
    decreases i
  {
    if i > 0 {
      assert m[0].0 != m[i].0;
      LookupUnique(m[1..], i - 1);
    }
  }

  /** Every key replaced by its value, one entry at a time in table order (`for k, v in m.items(): s = s.replace(k, v)`). */
  function ReplaceEach(s: string, m: Table): string
    decreases |m|
  {
    if |m| == 0 then s else ReplaceEach(ReplaceAll(s, m[0].0, m[0].1), m[1..])
  }

  /** The same pass, replacing a key only when it occurs (`if k in s: s = s.replace(k, v)`). */
  function ReplaceEachPresent(s: string, m: Table): string
    decreases |m|
  {
    if |m| == 0 then s
    else
      var t := if Contains(s, m[0].0) then ReplaceAll(s, m[0].0, m[0].1) else s;
      ReplaceEachPresent(t, m[1..])
  }

  /** Testing for an occurrence before replacing changes nothing. */
  lemma {:induction false} ReplaceEachPresentSame(s: string, m: Table)
    ensures ReplaceEachPresent(s, m) == ReplaceEach(s, m)
    decreases |m|
  {
    if |m| > 0 {
      ReplaceEachPresentSame(ReplaceAll(s, m[0].0, m[0].1), m[1..]);
    }
  }

  /** A pass over two tables is the pass over the first followed by the pass over the second. */
  lemma {:induction false} ReplaceEachConcat(s: string, m1: Table, m2: Table)
    ensures ReplaceEach(s, m1 + m2) == ReplaceEach(ReplaceEach(s, m1), m2)
    decreases |m1|
  {
    if |m1| == 0 {
      assert m1 + m2 == m2;
    } else {
      assert (m1 + m2)[1..] == m1[1..] + m2;
      ReplaceEachConcat(ReplaceAll(s, m1[0].0, m1[0].1), m1[1..], m2);
    }
  }

  /** A pass in which no non-empty key occurs changes nothing. */
  lemma {:induction false} ReplaceEachNoKey(s: string, m: Table)
    requires forall i | 0 <= i < |m| :: m[i].0 != [] && !Contains(s, m[i].0)
    ensures ReplaceEach(s, m) == s
    decreases |m|
  {
    if |m| > 0 {
      ReplaceEachNoKey(s, m[1..]);
    }
  }

  /** The index of the first entry whose key occurs in `s`. */
  function FirstMatch(s: string, m: Table): (r: Option<nat>)
    ensures r.Some? ==> r.value < |m| && Contains(s, m[r.value].0)
    ensures r.Some? ==> forall j | 0 <= j < r.value :: !Contains(s, m[j].0)
    ensures r.None? ==> forall j | 0 <= j < |m| :: !Contains(s, m[j].0)
    decreases |m|
  {
    if |m| == 0 then None
    else if Contains(s, m[0].0) then Some(0)
    else match FirstMatch(s, m[1..])
      case None => None
      case Some(j) => Some(j + 1)
  }

  /**
   * Only the first entry whose key occurs is applied, to every occurrence of that key
   * (`for k, v in m.items(): if k in s: s = s.replace(k, v); break`).
   */
  function FirstMatchRewrite(s: string, m: Table): (r: string)
    ensures (forall j | 0 <= j < |m| :: !Contains(s, m[j].0)) ==> r == s
    ensures forall i | 0 <= i < |m| && Contains(s, m[i].0) && (forall j | 0 <= j < i :: !Contains(s, m[j].0)) ::
      r == ReplaceAll(s, m[i].0, m[i].1)
  {
    FirstMatchIsLeast(s, m);
    match FirstMatch(s, m)
    case None => s
    case Some(i) => ReplaceAll(s, m[i].0, m[i].1)
  }

  /** The entry `FirstMatch` finds is the only one whose key occurs with no occurring key before it. */
  lemma FirstMatchIsLeast(s: string, m: Table)
    ensures forall i | 0 <= i < |m| && Contains(s, m[i].0) && (forall j | 0 <= j < i :: !Contains(s, m[j].0)) ::
      FirstMatch(s, m) == Some(i)
  {
    forall i | 0 <= i < |m| && Contains(s, m[i].0) && (forall j | 0 <= j < i :: !Contains(s, m[j].0))
      ensures FirstMatch(s, m) == Some(i)
    {
      FirstMatchAt(s, m, i);
    }
  }

  /** An entry whose key occurs, with no occurring key before it, is the one `FirstMatch` finds. */
  lemma FirstMatchAt(s: string, m: Table, i: nat)
    requires i < |m| && Contains(s, m[i].0)
    requires forall j | 0 <= j < i :: !Contains(s, m[j].0)
    ensures FirstMatch(s, m) == Some(i)
  {
    var r := FirstMatch(s, m);
    assert r.Some?;
    assert !(r.value < i);
  }
}
