/** Restoring redacted secrets in a configuration tree that was exported masked and then edited.
    `secret` is the predicate on key names; every result holds for any such predicate. */
module ConfigSecrets {
  const REDACTED := "<redacted>"

  datatype Value =
    | Str(text: string)
    | Table(entries: map<string, Value>)
    | Array(items: seq<Value>)
    | Scalar(n: int)

  /** What an array element or table entry is restored against when the current tree has no table. */
  const EMPTY: map<string, Value> := map[]

  // ---------- Masking and restoring ----------

  /** Every string under a secret key is masked, at any depth. */
  function Mask(secret: string -> bool, v: Value): Value
    decreases v, 0
  {
    match v
    case Table(m) => Table(map k | k in m :: MaskEntry(secret, k, m[k]))
    case Array(a) => Array(seq(|a|, i requires 0 <= i < |a| => Mask(secret, a[i])))
    case _ => v
  }

  function MaskEntry(secret: string -> bool, key: string, v: Value): Value
    decreases v, 1
  {
    if v.Str? && secret(key) then Str(REDACTED) else Mask(secret, v)
  }

  function TableAt(current: map<string, Value>, key: string): map<string, Value> {
    if key in current && current[key].Table? then current[key].entries else EMPTY
  }

  function TableIn(current: map<string, Value>, key: string, i: nat): map<string, Value> {
    if key in current && current[key].Array? && i < |current[key].items| && current[key].items[i].Table?
    then current[key].items[i].entries else EMPTY
  }

  function RestoreTable(secret: string -> bool, t: Value, current: map<string, Value>): (r: Value)
    requires t.Table?
    ensures r.Table?
    decreases t, 0
  {
    Table(map k | k in t.entries :: RestoreEntry(secret, k, t.entries[k], current))
  }

  function RestoreEntry(secret: string -> bool, key: string, v: Value, current: map<string, Value>): Value
    decreases v, 1
  {
    match v
    case Str(s) =>
      if s == REDACTED && secret(key) && key in current && current[key].Str? then current[key] else v
    case Table(_) => RestoreTable(secret, v, TableAt(current, key))
    case Array(a) =>
      Array(seq(|a|, i requires 0 <= i < |a| =>
        if a[i].Table? then RestoreTable(secret, a[i], TableIn(current, key, i)) else a[i]))
    case _ => v
  }

  /** The walk itself; the order in which the entries of a table are visited does not matter. */
  method RestoreRedactedSecrets(secret: string -> bool, t: Value, current: map<string, Value>) returns (r: Value)
    requires t.Table?
    ensures r == RestoreTable(secret, t, current)
    decreases t
  {
    hide RestoreTable;
    var table := t.entries;
    var rest := t.entries.Keys;
    while rest != {}
      invariant rest <= t.entries.Keys == table.Keys
      invariant forall k :: k in t.entries ==>
        table[k] == if k in rest then t.entries[k] else RestoreEntry(secret, k, t.entries[k], current)
    {
      var key :| key in rest;
      rest := rest - {key};
      var value := t.entries[key];
      match value
      case Str(s) =>
        if s == REDACTED && secret(key) {
          if key in current && current[key].Str? { table := table[key := current[key]]; }
        }
      case Table(_) =>
        var nested := RestoreRedactedSecrets(secret, value, TableAt(current, key));
        table := table[key := nested];
      case Array(a) =>
        var items := a;
        for i := 0 to |a|
          invariant |items| == |a|
          invariant forall j :: 0 <= j < |a| ==>
            items[j] == if j < i && a[j].Table? then RestoreTable(secret, a[j], TableIn(current, key, j)) else a[j]
        {
          if a[i].Table? {
            var nested := RestoreRedactedSecrets(secret, a[i], TableIn(current, key, i));
            items := items[i := nested];
          }
        }
        table := table[key := Array(items)];
        assert items == RestoreEntry(secret, key, value, current).items;
      case Scalar(_) =>
    }
    r := Table(table);
    RestoredTable(secret, t, table, current);
  }

  lemma {:induction false} RestoredTable(secret: string -> bool, t: Value,
      table: map<string, Value>, current: map<string, Value>)
    requires t.Table? && table.Keys == t.entries.Keys
    requires forall k :: k in t.entries ==> table[k] == RestoreEntry(secret, k, t.entries[k], current)
    ensures Table(table) == RestoreTable(secret, t, current)
  {
    assert table == RestoreTable(secret, t, current).entries;
  }

  // ---------- Masking, then restoring against the original ----------

  /** Nothing below `v` would be changed by masking. */
  predicate NothingMasked(secret: string -> bool, v: Value) {
    match v
    case Table(m) => forall k :: k in m ==>
      (if m[k].Str? then secret(k) ==> m[k].text == REDACTED else NothingMasked(secret, m[k]))
    case Array(a) => forall i :: 0 <= i < |a| ==> NothingMasked(secret, a[i])
    case _ => true
  }

  /** No secret sits inside an array that is itself an element of an array. */
  predicate Recoverable(secret: string -> bool, v: Value) {
    match v
    case Table(m) => forall k :: k in m ==> Recoverable(secret, m[k])
    case Array(a) => forall i :: 0 <= i < |a| ==>
      if a[i].Array? then NothingMasked(secret, a[i]) else Recoverable(secret, a[i])
    case _ => true
  }

  lemma {:induction false} MaskFixedIff(secret: string -> bool, v: Value)
    ensures Mask(secret, v) == v <==> NothingMasked(secret, v)
  {
    match v
    case Table(m) =>
      forall k | k in m ensures MaskEntry(secret, k, m[k]) == m[k] <==>
          (if m[k].Str? then secret(k) ==> m[k].text == REDACTED else NothingMasked(secret, m[k]))
      {
        MaskFixedIff(secret, m[k]);
      }
      if Mask(secret, v) == v {
        forall k | k in m ensures MaskEntry(secret, k, m[k]) == m[k] { assert Mask(secret, v).entries[k] == m[k]; }
      } else {
        assert Mask(secret, v).entries != m;
      }
    case Array(a) =>
      forall i | 0 <= i < |a| ensures Mask(secret, a[i]) == a[i] <==> NothingMasked(secret, a[i]) {
        MaskFixedIff(secret, a[i]);
      }
      if Mask(secret, v) == v {
        forall i | 0 <= i < |a| ensures Mask(secret, a[i]) == a[i] { assert Mask(secret, v).items[i] == a[i]; }
      } else {
        assert Mask(secret, v).items != a;
      }
    case _ =>
  }

  /** `m` is `v` with some of its secret-named strings redacted: what any masker may export. */
  ghost predicate MaskedAs(secret: string -> bool, v: Value, m: Value)
    decreases v, 0
  {
    match v
    case Table(e) => m.Table? && m.entries.Keys == e.Keys &&
      forall k :: k in e ==> MaskedEntry(secret, k, e[k], m.entries[k])
    case Array(a) => m.Array? && |m.items| == |a| && forall i :: 0 <= i < |a| ==> MaskedAs(secret, a[i], m.items[i])
    case _ => m == v
  }

  ghost predicate MaskedEntry(secret: string -> bool, key: string, v: Value, m: Value)
    decreases v, 1
  {
    MaskedAs(secret, v, m) || (v.Str? && secret(key) && m == Str(REDACTED))
  }

  /** Inside arrays nested directly in arrays nothing was redacted. */
  ghost predicate NestedKept(v: Value, m: Value)
    decreases v
  {
    match v
    case Table(e) => m.Table? && forall k :: k in e ==> k in m.entries && NestedKept(e[k], m.entries[k])
    case Array(a) => m.Array? && |m.items| == |a| && forall i :: 0 <= i < |a| ==>
      if a[i].Array? then m.items[i] == a[i] else NestedKept(a[i], m.items[i])
    case _ => true
  }

  /** Whatever a masker redacts among the secret-named strings, restoring the export against the
      original gives the original back, if and only if nothing was redacted in an array nested
      directly in an array. */
  lemma {:induction false} ExportThenRestoreIff(secret: string -> bool, t: Value, m: Value)
    requires t.Table? && MaskedAs(secret, t, m)
    ensures RestoreTable(secret, m, t.entries) == t <==> NestedKept(t, m)
    decreases t, 0
  {
    var e := t.entries;
    var r := RestoreTable(secret, m, e);
    forall k | k in e ensures r.entries[k] == e[k] <==> NestedKept(e[k], m.entries[k]) {
      EntryExportThenRestoreIff(secret, k, e[k], m.entries[k], e);
    }
    assert r.entries.Keys == e.Keys;
    if r != t { assert r.entries != e; }
  }

  lemma {:induction false} EntryExportThenRestoreIff(secret: string -> bool, key: string,
      v: Value, m: Value, current: map<string, Value>)
    requires key in current && current[key] == v && MaskedEntry(secret, key, v, m)
    ensures RestoreEntry(secret, key, m, current) == v <==> NestedKept(v, m)
    decreases v, 1
  {
    match v
    case Table(_) =>
      ExportThenRestoreIff(secret, v, m);
    case Array(a) =>
      var r := RestoreEntry(secret, key, m, current);
      forall i | 0 <= i < |a|
        ensures RestoredItem(secret, m, key, i, current) == a[i] <==>
                if a[i].Array? then m.items[i] == a[i] else NestedKept(a[i], m.items[i])
      {
        assert MaskedAs(secret, a[i], m.items[i]);
        if a[i].Table? { ExportThenRestoreIff(secret, a[i], m.items[i]); }
      }
      assert r.items == seq(|a|, i requires 0 <= i < |a| => RestoredItem(secret, m, key, i, current));
      if r == v {
        forall i | 0 <= i < |a| ensures RestoredItem(secret, m, key, i, current) == a[i] { assert r.items[i] == a[i]; }
      } else {
        assert r.items != a;
      }
    case _ =>
  }

  lemma {:induction false} MaskIsExport(secret: string -> bool, v: Value)
    ensures MaskedAs(secret, v, Mask(secret, v))
    ensures NestedKept(v, Mask(secret, v)) <==> Recoverable(secret, v)
  {
    match v
    case Table(e) =>
      forall k | k in e
        ensures MaskedEntry(secret, k, e[k], MaskEntry(secret, k, e[k]))
        ensures NestedKept(e[k], MaskEntry(secret, k, e[k])) <==> Recoverable(secret, e[k])
      {
        MaskIsExport(secret, e[k]);
      }
    case Array(a) =>
      forall i | 0 <= i < |a|
        ensures MaskedAs(secret, a[i], Mask(secret, a[i]))
        ensures (if a[i].Array? then Mask(secret, a[i]) == a[i] else NestedKept(a[i], Mask(secret, a[i]))) <==>
                if a[i].Array? then NothingMasked(secret, a[i]) else Recoverable(secret, a[i])
      {
        MaskIsExport(secret, a[i]);
        MaskFixedIff(secret, a[i]);
      }
    case _ =>
  }

  /** With every secret masked: if and only if no secret sits in an array nested directly in an array. */
  lemma {:induction false} MaskThenRestoreIff(secret: string -> bool, t: Value)
    requires t.Table?
    ensures RestoreTable(secret, Mask(secret, t), t.entries) == t <==> Recoverable(secret, t)
  {
    MaskIsExport(secret, t);
    ExportThenRestoreIff(secret, t, Mask(secret, t));
  }

  function RestoredItem(secret: string -> bool, v: Value, key: string, i: nat, current: map<string, Value>): Value
    requires v.Array? && i < |v.items|
  {
    if v.items[i].Table? then RestoreTable(secret, v.items[i], TableIn(current, key, i)) else v.items[i]
  }

  // ---------- Restoring an edited tree ----------

  /** `r` has the shape of `v`: the same keys, lengths and leaves, except that a redacted string
      under a secret key may have become another string. */
  ghost predicate KeepsEdits(secret: string -> bool, key: string, v: Value, r: Value)
    decreases v
  {
    match v
    case Str(s) => r == v || (s == REDACTED && secret(key) && r.Str?)
    case Table(m) => r.Table? && r.entries.Keys == m.Keys &&
      forall k :: k in m ==> KeepsEdits(secret, k, m[k], r.entries[k])
    case Array(a) => r.Array? && |r.items| == |a| && forall i :: 0 <= i < |a| ==>
      if a[i].Table? then KeepsEdits(secret, "", a[i], r.items[i]) else r.items[i] == a[i]
    case Scalar(_) => r == v
  }

  lemma {:induction false} RestoreKeepsEdits(secret: string -> bool, key: string, v: Value, current: map<string, Value>)
    ensures KeepsEdits(secret, key, v, RestoreEntry(secret, key, v, current))
    decreases v, 1
  {
    match v
    case Table(m) =>
      RestoreTableKeepsEdits(secret, v, TableAt(current, key));
      assert RestoreEntry(secret, key, v, current) == RestoreTable(secret, v, TableAt(current, key));
    case Array(a) =>
      forall i | 0 <= i < |a| && a[i].Table?
        ensures KeepsEdits(secret, "", a[i], RestoreTable(secret, a[i], TableIn(current, key, i)))
      {
        RestoreTableKeepsEdits(secret, a[i], TableIn(current, key, i));
      }
    case _ =>
  }

  lemma {:induction false} RestoreTableKeepsEdits(secret: string -> bool, t: Value, current: map<string, Value>)
    requires t.Table?
    ensures forall key :: KeepsEdits(secret, key, t, RestoreTable(secret, t, current))
    decreases t, 0
  {
    forall k | k in t.entries
      ensures KeepsEdits(secret, k, t.entries[k], RestoreEntry(secret, k, t.entries[k], current))
    {
      RestoreKeepsEdits(secret, k, t.entries[k], current);
    }
  }

  /** Restoring twice equals restoring once. */
  lemma {:induction false} RestoreIdempotent(secret: string -> bool, t: Value, current: map<string, Value>)
    requires t.Table?
    ensures RestoreTable(secret, RestoreTable(secret, t, current), current) == RestoreTable(secret, t, current)
    decreases t, 0
  {
    var once := RestoreTable(secret, t, current);
    var twice := RestoreTable(secret, once, current);
    forall k | k in t.entries ensures twice.entries[k] == once.entries[k] {
      RestoreEntryIdempotent(secret, k, t.entries[k], current);
    }
    assert twice.entries == once.entries;
  }

  lemma {:induction false} RestoreEntryIdempotent(secret: string -> bool, key: string,
      v: Value, current: map<string, Value>)
    ensures var once := RestoreEntry(secret, key, v, current); RestoreEntry(secret, key, once, current) == once
    decreases v, 1
  {
    match v
    case Table(_) =>
      RestoreIdempotent(secret, v, TableAt(current, key));
    case Array(a) =>
      var once := RestoreEntry(secret, key, v, current);
      var twice := RestoreEntry(secret, key, once, current);
      forall i | 0 <= i < |a| ensures twice.items[i] == once.items[i] {
        if a[i].Table? { RestoreIdempotent(secret, a[i], TableIn(current, key, i)); }
      }
      assert twice.items == once.items;
    case _ =>
  }

  // ---------- What goes wrong otherwise ----------

  /** `a = [[{ k = "x" }]]` with `k` secret comes back redacted. */
  lemma {:induction false} NestedArrayWitness(secret: string -> bool)
    requires secret("k")
    ensures var inner := Array([Table(map["k" := Str("x")])]);
      var t := Table(map["a" := Array([inner])]);
      RestoreTable(secret, Mask(secret, t), t.entries) != t
  {
    var leaf := Table(map["k" := Str("x")]);
    var inner := Array([leaf]);
    var t := Table(map["a" := Array([inner])]);
    assert leaf.entries["k"] == Str("x") && !NothingMasked(secret, leaf);
    assert inner.items[0] == leaf && !NothingMasked(secret, inner);
    assert t.entries["a"].items[0] == inner && !Recoverable(secret, t.entries["a"]);
    assert !Recoverable(secret, t);
    MaskThenRestoreIff(secret, t);
  }
}
