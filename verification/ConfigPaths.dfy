/** Where a restored secret comes from: the value at the same path of the current configuration. */
module ConfigPaths {
  import opened Text
  import opened ConfigSecrets

  datatype Hop = Field(key: string) | Index(i: nat)

  /** The value at a path of table keys and array indices. */
  function At(v: Value, path: seq<Hop>): Option<Value>
    decreases |path|
  {
    if path == [] then Some(v)
    else
      match path[0]
      case Field(k) => if v.Table? && k in v.entries then At(v.entries[k], path[1..]) else None
      case Index(i) => if v.Array? && i < |v.items| then At(v.items[i], path[1..]) else None
  }

  /** The walk does not enter an array nested directly in an array. */
  predicate Walked(path: seq<Hop>) {
    forall n :: 0 <= n < |path| - 1 ==> !(path[n].Index? && path[n + 1].Index?)
  }

  /** A leaf holds the placeholder under a secret key where the walk comes by. */
  ghost predicate Placeholder(secret: string -> bool, leaf: Value, path: seq<Hop>) {
    && leaf == Str("<redacted>") && Walked(path)
    && path != [] && path[|path| - 1].Field? && secret(path[|path| - 1].key)
  }

  predicate Leaf(v: Value) {
    v.Str? || v.Scalar?
  }

  /** Restoring replaces a placeholder under a secret key by the string at the same path of the current
      configuration, if there is one; every other leaf, and a placeholder whose path is missing
      there, stays as it was edited. */
  lemma {:induction false} RestoredLeaf(secret: string -> bool, t: Value, current: map<string, Value>, path: seq<Hop>)
    requires t.Table? && At(t, path).Some? && Leaf(At(t, path).value)
    ensures var leaf, now := At(t, path).value, At(Table(current), path);
      At(RestoreTable(secret, t, current), path) ==
        if Placeholder(secret, leaf, path) && now.Some? && now.value.Str? then now else Some(leaf)
    decreases |path|
  {
    var k, v, rest := path[0].key, t.entries[path[0].key], path[1..];
    var r := RestoreEntry(secret, k, v, current);
    assert At(RestoreTable(secret, t, current), path) == At(r, rest);
    match v
    case Str(_) => assert rest == [];
    case Scalar(_) => assert rest == [];
    case Table(_) =>
      BelowTable(secret, v, current, path);
    case Array(a) =>
      BelowArray(secret, v, current, path);
  }

  lemma {:induction false} BelowTable(secret: string -> bool, v: Value, current: map<string, Value>, path: seq<Hop>)
    requires path != [] && path[0].Field? && v.Table? && At(v, path[1..]).Some? && Leaf(At(v, path[1..]).value)
    ensures var leaf, now := At(v, path[1..]).value, At(Table(current), path);
      At(RestoreTable(secret, v, TableAt(current, path[0].key)), path[1..]) ==
        if Placeholder(secret, leaf, path) && now.Some? && now.value.Str? then now else Some(leaf)
    decreases |path|, 0
  {
    var k, rest := path[0].key, path[1..];
    RestoredLeaf(secret, v, TableAt(current, k), rest);
    TailWalked(path);
    assert rest[0].Field?;
  }

  lemma {:induction false} BelowArray(secret: string -> bool, v: Value, current: map<string, Value>, path: seq<Hop>)
    requires path != [] && path[0].Field? && v.Array? && At(v, path[1..]).Some? && Leaf(At(v, path[1..]).value)
    ensures var leaf, now := At(v, path[1..]).value, At(Table(current), path);
      At(RestoreEntry(secret, path[0].key, v, current), path[1..]) ==
        if Placeholder(secret, leaf, path) && now.Some? && now.value.Str? then now else Some(leaf)
    decreases |path|, 0
  {
    var k, rest := path[0].key, path[1..];
    var i, below := rest[0].i, rest[1..];
    var item := v.items[i];
    TailWalked(path);
    TailWalked(rest);
    if item.Table? {
      RestoredLeaf(secret, item, TableIn(current, k, i), below);
      assert below[0].Field?;
      SamePlace(current, path);
      assert RestoreEntry(secret, k, v, current).items[i] == RestoreTable(secret, item, TableIn(current, k, i));
    } else if item.Array? {
      assert below[0].Index? && path[1].Index? && path[2] == below[0];
    } else {
      assert below == [] && path[|path| - 1] == rest[0];
    }
  }

  /** What an array element is restored against is what the path leads to. */
  lemma {:induction false} SamePlace(current: map<string, Value>, path: seq<Hop>)
    requires |path| > 2 && path[0].Field? && path[1].Index? && path[2].Field?
    ensures At(Table(current), path) == At(Table(TableIn(current, path[0].key, path[1].i)), path[1..][1..])
  {
    var k, rest, below := path[0].key, path[1..], path[1..][1..];
    assert rest[0] == path[1] && below[0] == path[2];
    if k in current {
      assert At(Table(current), path) == At(current[k], rest);
      if current[k].Array? && rest[0].i < |current[k].items| {
        var item := current[k].items[rest[0].i];
        assert At(current[k], rest) == At(item, below);
        if item.Table? { assert Table(item.entries) == item; }
      }
    }
  }

  lemma {:induction false} TailWalked(path: seq<Hop>)
    requires path != []
    ensures var rest := path[1..];
      && (Walked(path) ==> Walked(rest))
      && (rest != [] && Walked(rest) && !(path[0].Index? && rest[0].Index?) ==> Walked(path))
      && (rest != [] ==> path[|path| - 1] == rest[|rest| - 1])
  {
    var rest := path[1..];
    assert forall n :: 0 <= n < |rest| ==> rest[n] == path[n + 1];
    if rest != [] && Walked(rest) && !(path[0].Index? && rest[0].Index?) {
      forall n | 0 <= n < |path| - 1 ensures !(path[n].Index? && path[n + 1].Index?) {
        if n > 0 { assert rest[n - 1] == path[n] && rest[n - 1 + 1] == path[n + 1]; }
      }
    }
  }

  /** Masking redacts every string under a secret key, at whatever path, and no other leaf. */
  lemma {:induction false} MaskedLeaf(secret: string -> bool, v: Value, path: seq<Hop>)
    requires At(v, path).Some? && Leaf(At(v, path).value)
    ensures var leaf := At(v, path).value;
      At(Mask(secret, v), path) ==
        if path != [] && path[|path| - 1].Field? && secret(path[|path| - 1].key) && leaf.Str?
          then Some(Str("<redacted>"))
        else Some(leaf)
    decreases |path|
  {
    if path != [] {
      var below := if path[0].Field? then v.entries[path[0].key] else v.items[path[0].i];
      MaskedLeaf(secret, below, path[1..]);
      if path[1..] == [] {
        assert At(v, path) == Some(below);
      } else {
        assert path[|path| - 1] == path[1..][|path| - 2] && !below.Str?;
      }
    }
  }

  /** Tables and arrays keep their places: a path leads somewhere in the restored tree exactly when it
      does in the edited one. */
  lemma {:induction false} RestoredPaths(secret: string -> bool, t: Value, current: map<string, Value>, path: seq<Hop>)
    requires t.Table?
    ensures At(RestoreTable(secret, t, current), path).Some? <==> At(t, path).Some?
    decreases |path|
  {
    if path != [] && path[0].Field? && path[0].key in t.entries {
      var k, v, rest := path[0].key, t.entries[path[0].key], path[1..];
      match v
      case Table(_) => RestoredPaths(secret, v, TableAt(current, k), rest);
      case Array(a) =>
        if rest != [] && rest[0].Index? && rest[0].i < |a| && a[rest[0].i].Table? {
          RestoredPaths(secret, a[rest[0].i], TableIn(current, k, rest[0].i), rest[1..]);
        }
      case _ =>
    }
  }

  /** A placeholder in a table the current configuration does not have stays one, whatever secrets the
      tables around it hold. */
  lemma {:induction false} NewTableWitness(secret: string -> bool)
    requires secret("api_key")
    ensures var current := map["api_key" := Str("A")];
      var edited := Table(map["api_key" := Str("<redacted>"), "tts" := Table(map["api_key" := Str("<redacted>")])]);
      && At(RestoreTable(secret, edited, current), [Field("api_key")]) == Some(Str("A"))
      && At(RestoreTable(secret, edited, current), [Field("tts"), Field("api_key")]) == Some(Str("<redacted>"))
  {
    var current := map["api_key" := Str("A")];
    var tts := Table(map["api_key" := Str("<redacted>")]);
    var edited := Table(map["api_key" := Str("<redacted>"), "tts" := tts]);
    var one, two := [Field("api_key")], [Field("tts"), Field("api_key")];
    assert one[1..] == [] && two[1..] == one;
    assert At(tts, one) == Some(Str("<redacted>"));
    RestoredLeaf(secret, edited, current, one);
    RestoredLeaf(secret, edited, current, two);
    assert At(Table(current), two) == None;
  }
}
