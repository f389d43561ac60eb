/**
 A labelled metric, internal/metrics/registry.go: a slice of rows searched linearly by printed
 key.  The slice is shown to be a map from keys, and for clean labels from label sets, to values.
 */
module Metric {
  import opened LabelKey

  datatype Row = Row(labels: Labels, value: real)

  /** One call, as a caller sees it. */
  datatype Op = Inc(pairs: seq<string>) | Set(pairs: seq<string>, value: real)

  ghost function OpKey(op: Op): string { KeyOf(LabelsOf(op.pairs)) }

  // ----- What a history of calls means ----------------------------------------------------------

  ghost predicate HasKey(ops: seq<Op>, key: string) {
    exists i :: 0 <= i < |ops| && OpKey(ops[i]) == key
  }

  /** The calls that first used a key, in order. */
  ghost function FirstUses(ops: seq<Op>): seq<Op> {
    if ops == [] then []
    else
      var last, before := ops[|ops| - 1], FirstUses(ops[..|ops| - 1]);
      if HasKey(before, OpKey(last)) then before else before + [last]
  }

  /** The last Set to a key, or 0, plus the Incs since. */
  ghost function ValueAt(ops: seq<Op>, key: string): real {
    if ops == [] then 0.0
    else
      var last, front := ops[|ops| - 1], ops[..|ops| - 1];
      if OpKey(last) != key then ValueAt(front, key)
      else if last.Set? then last.value
      else ValueAt(front, key) + 1.0
  }

  /** The same, by label set instead of by printed key. */
  ghost function ValueOfLabels(ops: seq<Op>, labels: Labels): real {
    if ops == [] then 0.0
    else
      var last, front := ops[|ops| - 1], ops[..|ops| - 1];
      if LabelsOf(last.pairs) != labels then ValueOfLabels(front, labels)
      else if last.Set? then last.value
      else ValueOfLabels(front, labels) + 1.0
  }

  lemma {:induction false} FirstUsesDistinct(ops: seq<Op>)
    ensures forall i, j | 0 <= i < j < |FirstUses(ops)| :: OpKey(FirstUses(ops)[i]) != OpKey(FirstUses(ops)[j])
  {
    if ops != [] {
      FirstUsesDistinct(ops[..|ops| - 1]);
    }
  }

  lemma FirstUsesGrow(front: seq<Op>, last: Op)
    ensures FirstUses(front) <= FirstUses(front + [last])
    ensures HasKey(FirstUses(front + [last]), OpKey(last))
  {
    var ops, before := front + [last], FirstUses(front);
    assert ops[..|ops| - 1] == front;
    if !HasKey(before, OpKey(last)) {
      assert FirstUses(ops)[|before|] == last;
    }
  }

  lemma {:induction false} FirstUsesCover(ops: seq<Op>, k: nat)
    requires k < |ops|
    ensures HasKey(FirstUses(ops), OpKey(ops[k]))
  {
    var n := |ops| - 1;
    assert ops == ops[..n] + [ops[n]];
    FirstUsesGrow(ops[..n], ops[n]);
    if k < n {
      FirstUsesCover(ops[..n], k);
      var before, after := FirstUses(ops[..n]), FirstUses(ops);
      var i :| 0 <= i < |before| && OpKey(before[i]) == OpKey(ops[k]);
      assert after[i] == before[i];
    }
  }

  lemma {:induction false} FirstUsesAreUses(ops: seq<Op>, i: nat)
    requires i < |FirstUses(ops)|
    ensures FirstUses(ops)[i] in ops
  {
    var n := |ops| - 1;
    if i < |FirstUses(ops[..n])| {
      FirstUsesAreUses(ops[..n], i);
      assert FirstUses(ops[..n])[i] in ops[..n];
    }
  }

  /** Call i is the first one with its key. */
  ghost predicate IsFirst(ops: seq<Op>, i: nat)
    requires i < |ops|
  {
    forall j | 0 <= j < i :: OpKey(ops[j]) != OpKey(ops[i])
  }

  lemma NewKeyIsFirst(ops: seq<Op>, n: nat)
    requires n < |ops| && !HasKey(FirstUses(ops[..n]), OpKey(ops[n]))
    ensures IsFirst(ops, n)
  {
    forall j | 0 <= j < n ensures OpKey(ops[j]) != OpKey(ops[n]) {
      FirstUsesCover(ops[..n], j);
      assert ops[..n][j] == ops[j];
    }
  }

  /** Where the rows made by the first n calls come from. */
  ghost predicate MadeAt(ops: seq<Op>, n: nat, rows: seq<Op>, at: seq<nat>)
    requires n <= |ops|
  {
    && |at| == |rows|
    && (forall i | 0 <= i < |at| :: at[i] < n && ops[at[i]] == rows[i] && IsFirst(ops, at[i]))
    && (forall i, j | 0 <= i < j < |at| :: at[i] < at[j])
  }

  lemma MadeNext(ops: seq<Op>, n: nat, rows: seq<Op>, at: seq<nat>)
    requires n < |ops| && MadeAt(ops, n, rows, at)
    ensures MadeAt(ops, n + 1, rows, at)
    ensures IsFirst(ops, n) ==> MadeAt(ops, n + 1, rows + [ops[n]], at + [n])
  {
  }

  lemma {:induction false} FirstUseOrderTo(ops: seq<Op>, n: nat) returns (at: seq<nat>)
    requires n <= |ops|
    ensures MadeAt(ops, n, FirstUses(ops[..n]), at)
  {
    if n == 0 {
      at := [];
    } else {
      at := FirstUseOrderTo(ops, n - 1);
      MadeNext(ops, n - 1, FirstUses(ops[..n - 1]), at);
      assert ops[..n][..n - 1] == ops[..n - 1] && ops[..n][n - 1] == ops[n - 1];
      if !HasKey(FirstUses(ops[..n - 1]), OpKey(ops[n - 1])) {
        NewKeyIsFirst(ops, n - 1);
        at := at + [n - 1];
      }
    }
  }

  /** The rows stand in the order of first use: each was made by the first call with its key. */
  lemma FirstUseOrder(ops: seq<Op>) returns (at: seq<nat>)
    ensures MadeAt(ops, |ops|, FirstUses(ops), at)
  {
    assert ops[..|ops|] == ops;
    at := FirstUseOrderTo(ops, |ops|);
  }

  /** Call i counts one up under a key. */
  ghost predicate CountsUp(ops: seq<Op>, key: string, i: int) {
    0 <= i < |ops| && OpKey(ops[i]) == key && ops[i].Inc?
  }

  /** The calls after position k and before n that do. */
  ghost function Incs(ops: seq<Op>, key: string, k: int, n: nat): set<int> {
    set i | k < i < n && CountsUp(ops, key, i)
  }

  lemma IncsNext(ops: seq<Op>, key: string, k: int, n: nat)
    requires k < n
    ensures |Incs(ops, key, k, n + 1)| == |Incs(ops, key, k, n)| + if CountsUp(ops, key, n) then 1 else 0
  {
    if CountsUp(ops, key, n) {
      assert Incs(ops, key, k, n + 1) == Incs(ops, key, k, n) + {n};
    } else {
      assert Incs(ops, key, k, n + 1) == Incs(ops, key, k, n);
    }
  }

  /** Call k is the last Set with a key before n, or there is none and k is -1. */
  ghost predicate LastSet(ops: seq<Op>, key: string, k: int, n: nat)
    requires n <= |ops|
  {
    && -1 <= k < n && (k >= 0 ==> OpKey(ops[k]) == key && ops[k].Set?)
    && forall i | 0 <= i < n && k < i && OpKey(ops[i]) == key :: ops[i].Inc?
  }

  lemma ValueNext(ops: seq<Op>, key: string, n: nat)
    requires n < |ops|
    ensures ValueAt(ops[..n + 1], key) ==
      if OpKey(ops[n]) != key then ValueAt(ops[..n], key)
      else if ops[n].Set? then ops[n].value
      else ValueAt(ops[..n], key) + 1.0
  {
    assert ops[..n + 1][..n] == ops[..n];
  }

  /** After n calls the key's value is that of the last Set, call k, or 0, plus one for every Inc since. */
  ghost predicate ValueIs(ops: seq<Op>, key: string, n: nat, k: int)
    requires n <= |ops|
  {
    && LastSet(ops, key, k, n)
    && ValueAt(ops[..n], key) == (if k >= 0 then ops[k].value else 0.0) + |Incs(ops, key, k, n)| as real
  }

  lemma NothingYet(ops: seq<Op>, key: string)
    ensures ValueIs(ops, key, 0, -1)
  {
    assert Incs(ops, key, -1, 0) == {} && ops[..0] == [];
  }

  lemma SetResets(ops: seq<Op>, key: string, n: nat)
    requires n < |ops| && OpKey(ops[n]) == key && ops[n].Set?
    ensures ValueIs(ops, key, n + 1, n)
  {
    ValueNext(ops, key, n);
    assert Incs(ops, key, n, n + 1) == {};
  }

  lemma LastSetKept(ops: seq<Op>, key: string, n: nat, k: int)
    requires n < |ops| && LastSet(ops, key, k, n) && !(OpKey(ops[n]) == key && ops[n].Set?)
    ensures LastSet(ops, key, k, n + 1)
  {
  }

  lemma ValueAdds(ops: seq<Op>, key: string, n: nat, k: int, base: real)
    requires n < |ops| && -1 <= k < n && !(OpKey(ops[n]) == key && ops[n].Set?)
    requires ValueAt(ops[..n], key) == base + |Incs(ops, key, k, n)| as real
    ensures ValueAt(ops[..n + 1], key) == base + |Incs(ops, key, k, n + 1)| as real
  {
    ValueNext(ops, key, n);
    IncsNext(ops, key, k, n);
  }

  lemma OthersAdd(ops: seq<Op>, key: string, n: nat, k: int)
    requires n < |ops| && ValueIs(ops, key, n, k) && !(OpKey(ops[n]) == key && ops[n].Set?)
    ensures ValueIs(ops, key, n + 1, k)
  {
    LastSetKept(ops, key, n, k);
    ValueAdds(ops, key, n, k, if k >= 0 then ops[k].value else 0.0);
  }

  lemma {:induction false} ValueTo(ops: seq<Op>, key: string, n: nat) returns (k: int)
    requires n <= |ops|
    ensures ValueIs(ops, key, n, k)
  {
    if n == 0 {
      k := -1;
      NothingYet(ops, key);
    } else if OpKey(ops[n - 1]) == key && ops[n - 1].Set? {
      k := n - 1;
      SetResets(ops, key, n - 1);
    } else {
      k := ValueTo(ops, key, n - 1);
      OthersAdd(ops, key, n - 1, k);
    }
  }

  /** A key's value: what the last Set with that key said, or 0, plus one for every Inc since. */
  lemma ValueExactly(ops: seq<Op>, key: string) returns (k: int)
    ensures LastSet(ops, key, k, |ops|)
    ensures ValueAt(ops, key) == (if k >= 0 then ops[k].value else 0.0) + |Incs(ops, key, k, |ops|)| as real
  {
    assert ops[..|ops|] == ops;
    k := ValueTo(ops, key, |ops|);
  }

  ghost predicate CleanOps(ops: seq<Op>) {
    forall i | 0 <= i < |ops| :: Clean(LabelsOf(ops[i].pairs))
  }

  /** With clean labels nothing is lost by comparing printed keys. */
  lemma {:induction false} CleanValues(ops: seq<Op>, labels: Labels)
    requires CleanOps(ops) && Clean(labels)
    ensures ValueAt(ops, KeyOf(labels)) == ValueOfLabels(ops, labels)
  {
    if ops != [] {
      var last := ops[|ops| - 1];
      CleanValues(ops[..|ops| - 1], labels);
      assert Clean(LabelsOf(last.pairs));
      if OpKey(last) == KeyOf(labels) {
        KeyInjective(LabelsOf(last.pairs), labels);
      }
    }
  }

  /** Some row was made for exactly the labels of this call. */
  ghost predicate HasOwnRow(rows: seq<Op>, op: Op) {
    exists k :: 0 <= k < |rows| && LabelsOf(rows[k].pairs) == LabelsOf(op.pairs)
  }

  lemma AloneHasOwnRow(ops: seq<Op>, i: nat)
    requires i < |ops| && Alone(LabelsOf(ops[i].pairs))
    ensures HasOwnRow(FirstUses(ops), ops[i])
  {
    FirstUsesCover(ops, i);
    var rows := FirstUses(ops);
    var k :| 0 <= k < |rows| && OpKey(rows[k]) == OpKey(ops[i]);
    AloneIsAlone(LabelsOf(ops[i].pairs), LabelsOf(rows[k].pairs));
  }

  lemma TwoOps(a: Op, b: Op)
    requires OpKey(a) == OpKey(b) && LabelsOf(a.pairs) != LabelsOf(b.pairs) && a.Inc? && b.Inc?
    ensures FirstUses([a, b]) == [a] && !HasOwnRow([a], b)
    ensures ValueAt([a, b], OpKey(b)) == 2.0 && ValueOfLabels([a, b], LabelsOf(b.pairs)) == 1.0
  {
    assert [a, b][..1] == [a] && [a][..0] == [];
    assert FirstUses([a]) == [a] && OpKey([a][0]) == OpKey(b);
    assert ValueAt([a], OpKey(b)) == 1.0 && ValueOfLabels([a], LabelsOf(b.pairs)) == 0.0;
  }

  /** Labels that are not alone can lose their row to one other label, and their count with it. */
  lemma SharedRow(p: seq<string>) returns (q: seq<string>)
    requires !Alone(LabelsOf(p))
    ensures var ops := [Inc(q), Inc(p)];
      && LabelsOf(q) != LabelsOf(p) && FirstUses(ops) == [Inc(q)] && !HasOwnRow(FirstUses(ops), Inc(p))
      && ValueAt(ops, KeyOf(LabelsOf(p))) == 2.0 && ValueOfLabels(ops, LabelsOf(p)) == 1.0
  {
    var name, value := KeyCollision(LabelsOf(p));
    q := [name, value];
    assert AfterPairs(q, 0) == map[] && LabelsOf(q) == map[name := value];
    TwoOps(Inc(q), Inc(p));
  }

  /** Exactly which labels keep a row of their own, whatever else is counted. */
  lemma OwnRowExactly(p: seq<string>)
    ensures (forall ops: seq<Op>, i | 0 <= i < |ops| && ops[i].pairs == p :: HasOwnRow(FirstUses(ops), ops[i]))
      <==> Alone(LabelsOf(p))
  {
    if Alone(LabelsOf(p)) {
      forall ops: seq<Op>, i | 0 <= i < |ops| && ops[i].pairs == p ensures HasOwnRow(FirstUses(ops), ops[i]) {
        AloneHasOwnRow(ops, i);
      }
    } else {
      var q := SharedRow(p);
      var ops := [Inc(q), Inc(p)];
      assert ops[1].pairs == p && !HasOwnRow(FirstUses(ops), ops[1]);
    }
  }

  // ----- The rows ----------------------------------------------------------------------------------

  /** A row shows the labels of the call that created it and the value its key has earned. */
  ghost predicate RowOk(row: Row, first: Op, ops: seq<Op>) {
    row.labels == LabelsOf(first.pairs) && row.value == ValueAt(ops, OpKey(first))
  }

  ghost predicate RowsOk(rows: seq<Row>, ops: seq<Op>) {
    && |rows| == |FirstUses(ops)|
    && forall i | 0 <= i < |rows| :: RowOk(rows[i], FirstUses(ops)[i], ops)
  }

  class LabeledMetric {
    var labeled: seq<Row>
    ghost var history: seq<Op>

    /** One row per key, in first-use order, with the value the history gives that key. */
    ghost predicate Valid()
      reads this
    {
      RowsOk(labeled, history)
    }

    constructor ()
      ensures Valid() && history == [] && labeled == []
    {
      labeled, history := [], [];
    }

    /** The linear scan: the first row with the key, or the number of rows. */
    method FindRow(key: string) returns (i: nat)
      ensures i <= |labeled|
      ensures i < |labeled| ==> KeyOf(labeled[i].labels) == key
      ensures forall k | 0 <= k < i :: KeyOf(labeled[k].labels) != key
    {
      i := 0;
      while i < |labeled|
        invariant i <= |labeled|
        invariant forall k | 0 <= k < i :: KeyOf(labeled[k].labels) != key
      {
        var rowKey := LabelKeyFromMap(labeled[i].labels);
        if rowKey == key {
          return;
        }
        i := i + 1;
      }
    }

    method IncWithLabels(pairs: seq<string>)
      requires Valid()
      modifies this
      ensures Valid() && history == old(history) + [Inc(pairs)]
    {
      var key := KeyOfPairs(pairs);
      var i := FindRow(key);
      history := history + [Inc(pairs)];
      if i < |labeled| {
        labeled := labeled[i := labeled[i].(value := labeled[i].value + 1.0)];
        UpdatedRows(old(labeled), old(history), Inc(pairs), i, labeled);
      } else {
        var m := LabelMap(pairs);
        labeled := labeled + [Row(m, 1.0)];
        AppendedRows(old(labeled), old(history), Inc(pairs), labeled);
      }
    }

    method SetWithLabels(v: real, pairs: seq<string>)
      requires Valid()
      modifies this
      ensures Valid() && history == old(history) + [Set(pairs, v)]
    {
      var key := KeyOfPairs(pairs);
      var i := FindRow(key);
      history := history + [Set(pairs, v)];
      if i < |labeled| {
        labeled := labeled[i := labeled[i].(value := v)];
        UpdatedRows(old(labeled), old(history), Set(pairs, v), i, labeled);
      } else {
        var m := LabelMap(pairs);
        labeled := labeled + [Row(m, v)];
        AppendedRows(old(labeled), old(history), Set(pairs, v), labeled);
      }
    }

    /** The rows are a map: keys are pairwise distinct, and each used key has its one row. */
    lemma RowsAreAMap(k: nat)
      requires Valid() && k < |history|
      ensures forall i, j | 0 <= i < j < |labeled| :: KeyOf(labeled[i].labels) != KeyOf(labeled[j].labels)
      ensures exists i :: 0 <= i < |labeled| && KeyOf(labeled[i].labels) == OpKey(history[k])
                          && labeled[i].value == ValueAt(history, OpKey(history[k]))
    {
      FirstUsesDistinct(history);
      FirstUsesCover(history, k);
      assert forall i | 0 <= i < |labeled| :: RowOk(labeled[i], FirstUses(history)[i], history);
      var i :| 0 <= i < |FirstUses(history)| && OpKey(FirstUses(history)[i]) == OpKey(history[k]);
      assert KeyOf(labeled[i].labels) == OpKey(history[k]);
    }

    /** With clean labels the rows are a map from label sets. */
    lemma CleanRowsAreAMap(k: nat)
      requires Valid() && CleanOps(history) && k < |history|
      ensures forall i, j | 0 <= i < j < |labeled| :: labeled[i].labels != labeled[j].labels
      ensures exists i :: 0 <= i < |labeled| && labeled[i].labels == LabelsOf(history[k].pairs)
                          && labeled[i].value == ValueOfLabels(history, labeled[i].labels)
    {
      RowsAreAMap(k);
      var i :| 0 <= i < |labeled| && KeyOf(labeled[i].labels) == OpKey(history[k])
               && labeled[i].value == ValueAt(history, OpKey(history[k]));
      FirstUsesAreUses(history, i);
      assert RowOk(labeled[i], FirstUses(history)[i], history);
      var f :| 0 <= f < |history| && history[f] == FirstUses(history)[i];
      assert Clean(LabelsOf(history[f].pairs)) && Clean(LabelsOf(history[k].pairs));
      KeyInjective(labeled[i].labels, LabelsOf(history[k].pairs));
      CleanValues(history, labeled[i].labels);
    }
  }

  lemma UpdatedRows(rows: seq<Row>, ops: seq<Op>, op: Op, i: nat, rows': seq<Row>)
    requires RowsOk(rows, ops) && i < |rows|
    requires KeyOf(rows[i].labels) == OpKey(op)
    requires rows' == rows[i := Row(rows[i].labels, if op.Set? then op.value else rows[i].value + 1.0)]
    ensures RowsOk(rows', ops + [op])
  {
    assert (ops + [op])[..|ops|] == ops;
    assert OpKey(FirstUses(ops)[i]) == OpKey(op);
    FirstUsesDistinct(ops);
    forall k | 0 <= k < |rows'| ensures RowOk(rows'[k], FirstUses(ops)[k], ops + [op]) {
      assert RowOk(rows[k], FirstUses(ops)[k], ops);
      assert k != i ==> OpKey(FirstUses(ops)[k]) != OpKey(op);
    }
  }

  lemma {:induction false} UnusedIsZero(ops: seq<Op>, key: string)
    requires forall i | 0 <= i < |FirstUses(ops)| :: OpKey(FirstUses(ops)[i]) != key
    ensures ValueAt(ops, key) == 0.0
  {
    if ops != [] {
      var n := |ops| - 1;
      FirstUsesCover(ops, n);
      assert OpKey(ops[n]) != key;
      var before := FirstUses(ops[..n]);
      assert forall i | 0 <= i < |before| :: before[i] == FirstUses(ops)[i];
      UnusedIsZero(ops[..n], key);
    }
  }

  lemma AppendedRows(rows: seq<Row>, ops: seq<Op>, op: Op, rows': seq<Row>)
    requires RowsOk(rows, ops)
    requires forall k | 0 <= k < |rows| :: KeyOf(rows[k].labels) != OpKey(op)
    requires rows' == rows + [Row(LabelsOf(op.pairs), if op.Set? then op.value else 1.0)]
    ensures RowsOk(rows', ops + [op])
  {
    assert (ops + [op])[..|ops|] == ops;
    forall k | 0 <= k < |rows| ensures OpKey(FirstUses(ops)[k]) != OpKey(op) {
      assert RowOk(rows[k], FirstUses(ops)[k], ops);
    }
    assert FirstUses(ops + [op]) == FirstUses(ops) + [op];
    UnusedIsZero(ops, OpKey(op));
    forall k | 0 <= k < |rows'| ensures RowOk(rows'[k], FirstUses(ops + [op])[k], ops + [op]) {
      if k < |rows| {
        assert RowOk(rows[k], FirstUses(ops)[k], ops);
      }
    }
  }
}
