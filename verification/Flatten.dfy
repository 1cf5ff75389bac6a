/**
 Configuration files of a server (protocube/server/config_parser.go): nested find maps become dotted keys,
 and the layers of software, blueprint and request are merged file by file.
 */
module Flatten {
  import opened Wrappers
  import opened Sequences

  /** A value found under a key: a nested map, or anything else. */
  datatype Value = Leaf(data: int) | Nested(kids: map<string, Value>)

  type Path = seq<string>

  // ---------------------------------------------------------------------------
  // Paths and dotted keys
  // ---------------------------------------------------------------------------

  /** The leaf that a path of keys leads to. */
  function LeafAt(v: Value, path: Path): Option<int>
    decreases |path|
  {
    match v
    case Leaf(data) => if path == [] then Some(data) else None
    case Nested(kids) => if path != [] && path[0] in kids then LeafAt(kids[path[0]], path[1..]) else None
  }

  function Extend(prefix: string, key: string): string {
    if prefix != "" then prefix + "." + key else key
  }

  /** The dotted key of a path below a prefix. */
  function DottedFrom(prefix: string, path: Path): string
    decreases |path|
  {
    if path == [] then prefix else DottedFrom(Extend(prefix, path[0]), path[1..])
  }

  function Dotted(path: Path): string {
    DottedFrom("", path)
  }

  /** `flat` has an entry for every leaf, and nothing but leaves under their dotted keys. */
  ghost predicate Flattens(prefix: string, v: Value, flat: map<string, int>) {
    && (forall path :: LeafAt(v, path).Some? ==> DottedFrom(prefix, path) in flat)
    && (forall k :: k in flat ==> IsLeafUnder(prefix, v, k, flat[k]))
  }

  ghost predicate IsLeafUnder(prefix: string, v: Value, k: string, data: int) {
    exists path :: LeafAt(v, path) == Some(data) && DottedFrom(prefix, path) == k
  }

  /** The part of a nested map that the range has visited. */
  function Visited(v: Value, keys: set<string>): Value
    requires v.Nested?
  {
    Nested(map k | k in v.kids && k in keys :: v.kids[k])
  }

  /** Flattening, with the keys visited in any order; when two leaves share a dotted key the later wins. */
  method FlattenMap(prefix: string, v: Value) returns (result: map<string, int>)
    requires v.Nested?
    ensures Flattens(prefix, v, result)
    decreases v
  {
    result := map[];
    var keys := v.kids.Keys;
    ghost var done: set<string> := {};
    while keys != {}
      invariant keys + done == v.kids.Keys && keys !! done
      invariant Flattens(prefix, Visited(v, done), result)
      decreases |keys|
    {
      var key :| key in keys;
      var fullKey := key;
      if prefix != "" {
        fullKey := prefix + "." + key;
      }
      var value := v.kids[key];
      var part;
      match value {
        case Nested(_) => part := FlattenMap(fullKey, value);
        case Leaf(data) =>
          part := map[fullKey := data];
          LeafFlattens(fullKey, data);
      }
      VisitedOneMore(prefix, v, done, key, result, part);
      result := result + part;
      keys := keys - {key};
      done := done + {key};
    }
    assert Visited(v, done) == v;
  }

  lemma LeafFlattens(prefix: string, data: int)
    ensures Flattens(prefix, Leaf(data), map[prefix := data])
  {
    assert LeafAt(Leaf(data), []) == Some(data) && DottedFrom(prefix, []) == prefix;
  }

  lemma VisitedOneMore(prefix: string, v: Value, done: set<string>, key: string,
                       result: map<string, int>, part: map<string, int>)
    requires v.Nested? && key in v.kids && key !in done
    requires Flattens(prefix, Visited(v, done), result)
    requires Flattens(Extend(prefix, key), v.kids[key], part)
    ensures Flattens(prefix, Visited(v, done + {key}), result + part)
  {
    var before, after := Visited(v, done), Visited(v, done + {key});
    forall path | LeafAt(after, path).Some? ensures DottedFrom(prefix, path) in result + part {
      if path[0] == key {
        assert LeafAt(v.kids[key], path[1..]).Some?;
      } else {
        assert LeafAt(before, path).Some?;
      }
    }
    forall k | k in result + part ensures IsLeafUnder(prefix, after, k, (result + part)[k]) {
      if k in part {
        var below :| LeafAt(v.kids[key], below) == Some(part[k]) && DottedFrom(Extend(prefix, key), below) == k;
        var path := [key] + below;
        assert path[1..] == below;
        assert LeafAt(after, path) == Some(part[k]) && DottedFrom(prefix, path) == k;
      } else {
        var path :| LeafAt(before, path) == Some(result[k]) && DottedFrom(prefix, path) == k;
        assert LeafAt(after, path) == Some(result[k]);
      }
    }
  }

  // ---------------------------------------------------------------------------
  // Nothing is lost when the keys are plain
  // ---------------------------------------------------------------------------

  predicate PlainKey(key: string) {
    key != "" && '.' !in key
  }

  ghost predicate PlainPath(path: Path) {
    forall i :: 0 <= i < |path| ==> PlainKey(path[i])
  }

  /** Every key, at every depth, is non-empty and has no dot. */
  ghost predicate PlainKeys(v: Value) {
    v.Nested? ==> forall k :: k in v.kids ==> PlainKey(k) && PlainKeys(v.kids[k])
  }

  lemma {:induction false} LeafPathIsPlain(v: Value, path: Path)
    requires PlainKeys(v) && LeafAt(v, path).Some?
    ensures PlainPath(path)
    decreases |path|
  {
    if path != [] {
      LeafPathIsPlain(v.kids[path[0]], path[1..]);
      assert forall i :: 0 < i < |path| ==> path[i] == path[1..][i - 1];
    }
  }

  /** The position of the first dot, or the length. */
  function FirstDot(s: string): (n: nat)
    ensures n <= |s| && '.' !in s[..n] && (n < |s| ==> s[n] == '.')
  {
    if s == "" || s[0] == '.' then 0
    else
      var n := 1 + FirstDot(s[1..]);
      assert s[..n] == [s[0]] + s[1..][..n - 1];
      n
  }

  function Split(s: string): Path
    decreases |s|
  {
    var n := FirstDot(s);
    if n == |s| then [s] else [s[..n]] + Split(s[n + 1..])
  }

  lemma {:induction false} DottedIsJoin(prefix: string, path: Path)
    requires PlainPath(path) && path != []
    ensures DottedFrom(prefix, path) == Extend(prefix, Join(path)) && Join(path) != ""
    decreases |path|
  {
    assert PlainKey(path[0]);
    if |path| > 1 {
      var next := Extend(prefix, path[0]);
      DottedIsJoin(next, path[1..]);
      assert next + "." + Join(path[1..]) == Extend(prefix, Join(path));
    }
  }

  lemma {:induction false} FirstDotOf(key: string, tail: string)
    requires '.' !in key && (tail == "" || tail[0] == '.')
    ensures FirstDot(key + tail) == |key|
  {
    if key == "" {
      assert key + tail == tail;
    } else {
      assert (key + tail)[1..] == key[1..] + tail;
      FirstDotOf(key[1..], tail);
    }
  }

  lemma {:induction false} SplitJoin(path: Path)
    requires PlainPath(path) && path != []
    ensures Split(Join(path)) == path
    decreases |path|
  {
    var key := path[0];
    assert PlainKey(key);
    if |path| == 1 {
      FirstDotOf(key, "");
      assert key + "" == key;
    } else {
      var rest := Join(path[1..]);
      FirstDotOf(key, "." + rest);
      SplitJoin(path[1..]);
      var s := key + ("." + rest);
      assert Join(path) == s;
      assert s[..|key|] == key && s[|key| + 1..] == rest;
    }
  }

  /** Splitting a dotted key gives back its path. */
  lemma SplitUndoesDotted(path: Path)
    requires PlainPath(path) && path != []
    ensures Split(Dotted(path)) == path
  {
    DottedIsJoin("", path);
    SplitJoin(path);
  }

  /** With plain keys the dotted keys of the leaves are distinct, and every lookup in the flat map is the
      nested lookup along the key split at its dots. */
  lemma PlainLookups(v: Value, flat: map<string, int>)
    requires v.Nested? && PlainKeys(v) && Flattens("", v, flat)
    ensures forall p, q :: LeafAt(v, p).Some? && LeafAt(v, q).Some? && Dotted(p) == Dotted(q) ==> p == q
    ensures forall p :: LeafAt(v, p).Some? ==> Dotted(p) in flat && flat[Dotted(p)] == LeafAt(v, p).value
    ensures forall k :: k in flat ==> LeafAt(v, Split(k)) == Some(flat[k]) && Dotted(Split(k)) == k
  {
    forall p | LeafAt(v, p).Some? ensures Split(Dotted(p)) == p {
      LeafPathIsPlain(v, p);
      SplitUndoesDotted(p);
    }
    forall k | k in flat ensures LeafAt(v, Split(k)) == Some(flat[k]) && Dotted(Split(k)) == k {
      assert IsLeafUnder("", v, k, flat[k]);
    }
  }

  // ---------------------------------------------------------------------------
  // Unflattening
  // ---------------------------------------------------------------------------

  ghost function MaxLength(paths: set<Path>): (n: nat)
    ensures forall p :: p in paths ==> |p| <= n
    ensures n > 0 ==> exists p :: p in paths && |p| == n
    decreases |paths|
  {
    if paths == {} then 0
    else
      var p :| p in paths;
      var m := MaxLength(paths - {p});
      assert forall q :: q in paths ==> q == p || q in paths - {p};
      if |p| > m then |p| else m
  }

  function Heads(leaves: map<Path, int>): set<string> {
    set p | p in leaves && p != [] :: p[0]
  }

  /** The leaves below `key`, by what is left of their paths. */
  function Below(leaves: map<Path, int>, key: string): map<Path, int> {
    map p | p in (set q | q in leaves && q != [] && q[0] == key :: q[1..]) && [key] + p in leaves :: leaves[[key] + p]
  }

  lemma BelowHas(leaves: map<Path, int>, key: string, p: Path)
    ensures p in Below(leaves, key) <==> [key] + p in leaves
  {
    if [key] + p in leaves {
      assert ([key] + p)[1..] == p && ([key] + p)[0] == key;
    }
  }

  lemma BelowIsShorter(leaves: map<Path, int>, key: string)
    requires key in Heads(leaves) && [key] !in leaves
    ensures MaxLength(Below(leaves, key).Keys) < MaxLength(leaves.Keys)
  {
    var below := Below(leaves, key);
    var q :| q in leaves && q != [] && q[0] == key;
    assert |q| <= MaxLength(leaves.Keys);
    if MaxLength(below.Keys) > 0 {
      var p :| p in below.Keys && |p| == MaxLength(below.Keys);
      BelowHas(leaves, key, p);
      assert |[key] + p| <= MaxLength(leaves.Keys);
    }
  }

  /** The nested map with the given leaves. */
  ghost function Build(leaves: map<Path, int>): Value
    decreases MaxLength(leaves.Keys)
  {
    Nested(map k | k in Heads(leaves) ::
             if [k] in leaves then Leaf(leaves[[k]])
             else (BelowIsShorter(leaves, k); Build(Below(leaves, k))))
  }

  function LeavesOf(flat: map<string, int>): map<Path, int> {
    map p | p in (set k | k in flat :: Split(k)) && Dotted(p) in flat :: flat[Dotted(p)]
  }

  /** The nested map that a flat one stands for: its keys split at their dots. */
  ghost function Unflatten(flat: map<string, int>): Value {
    Build(LeavesOf(flat))
  }

  ghost predicate NoEmptyBelow(v: Value) {
    v.Nested? ==> forall k :: k in v.kids ==> v.kids[k] != Nested(map[]) && NoEmptyBelow(v.kids[k])
  }

  ghost predicate IsLeavesOf(leaves: map<Path, int>, v: Value) {
    && (forall p :: p in leaves <==> LeafAt(v, p).Some?)
    && (forall p :: p in leaves ==> Some(leaves[p]) == LeafAt(v, p))
  }

  lemma {:induction false} HasLeaf(v: Value) returns (path: Path)
    requires NoEmptyBelow(v) && v != Nested(map[])
    ensures LeafAt(v, path).Some?
    decreases v
  {
    if v.Leaf? {
      path := [];
    } else {
      assert v.kids != map[];
      var k :| k in v.kids;
      var below := HasLeaf(v.kids[k]);
      path := [k] + below;
      assert path[1..] == below;
    }
  }

  lemma LeavesBelow(leaves: map<Path, int>, v: Value, k: string)
    requires v.Nested? && k in v.kids && IsLeavesOf(leaves, v)
    ensures IsLeavesOf(Below(leaves, k), v.kids[k])
  {
    forall p ensures p in Below(leaves, k) <==> LeafAt(v.kids[k], p).Some? {
      BelowHas(leaves, k, p);
      assert ([k] + p)[1..] == p;
      assert LeafAt(v, [k] + p) == LeafAt(v.kids[k], p);
    }
    forall p | p in Below(leaves, k) ensures Some(Below(leaves, k)[p]) == LeafAt(v.kids[k], p) {
      BelowHas(leaves, k, p);
      assert ([k] + p)[1..] == p;
      assert LeafAt(v, [k] + p) == LeafAt(v.kids[k], p);
    }
  }

  lemma SameHeads(leaves: map<Path, int>, v: Value)
    requires v.Nested? && NoEmptyBelow(v) && IsLeavesOf(leaves, v)
    ensures Heads(leaves) == v.kids.Keys
  {
    forall k | k in v.kids ensures k in Heads(leaves) {
      var below := HasLeaf(v.kids[k]);
      var path := [k] + below;
      assert path[1..] == below && path[0] == k;
      assert path in leaves;
    }
  }

  lemma LeafHere(leaves: map<Path, int>, v: Value, k: string)
    requires v.Nested? && k in v.kids && IsLeavesOf(leaves, v)
    ensures [k] in leaves <==> v.kids[k].Leaf?
    ensures v.kids[k].Leaf? ==> leaves[[k]] == v.kids[k].data
  {
    assert [k][1..] == [];
    assert LeafAt(v, [k]) == LeafAt(v.kids[k], []);
  }

  lemma {:induction false} BuildInverts(leaves: map<Path, int>, v: Value)
    requires v.Nested? && NoEmptyBelow(v) && IsLeavesOf(leaves, v)
    ensures Build(leaves) == v
    decreases v
  {
    SameHeads(leaves, v);
    var kids := Build(leaves).kids;
    forall k | k in v.kids ensures kids[k] == v.kids[k] {
      LeafHere(leaves, v, k);
      if v.kids[k].Nested? {
        LeavesBelow(leaves, v, k);
        BuildInverts(Below(leaves, k), v.kids[k]);
      }
    }
    assert kids == v.kids;
  }

  lemma {:induction false} BuildHasNoEmpty(leaves: map<Path, int>)
    ensures NoEmptyBelow(Build(leaves))
    decreases MaxLength(leaves.Keys)
  {
    var b := Build(leaves);
    forall k | k in b.kids ensures b.kids[k] != Nested(map[]) && NoEmptyBelow(b.kids[k]) {
      if [k] !in leaves {
        BelowIsShorter(leaves, k);
        BuildHasNoEmpty(Below(leaves, k));
        BelowIsInhabited(leaves, k);
        assert b.kids[k] == Build(Below(leaves, k)) && b.kids[k].kids.Keys == Heads(Below(leaves, k));
      }
    }
  }

  lemma BelowIsInhabited(leaves: map<Path, int>, key: string)
    requires key in Heads(leaves) && [key] !in leaves
    ensures Heads(Below(leaves, key)) != {}
  {
    var q :| q in leaves && q != [] && q[0] == key;
    var p := q[1..];
    assert [key] + p == q && (p == [] ==> q == [key]);
    BelowHas(leaves, key, p);
    assert p[0] in Heads(Below(leaves, key));
  }

  /** For plain keys, unflattening what flattening made gives back the map exactly when it has no empty
      sub-map, whatever order the keys were visited in. */
  lemma UnflattenUndoesFlatten(v: Value, flat: map<string, int>)
    requires v.Nested? && PlainKeys(v) && Flattens("", v, flat)
    ensures Unflatten(flat) == v <==> NoEmptyBelow(v)
  {
    PlainLookups(v, flat);
    var leaves := LeavesOf(flat);
    BuildHasNoEmpty(leaves);
    if NoEmptyBelow(v) {
      forall p ensures p in leaves <==> LeafAt(v, p).Some? {
        if LeafAt(v, p).Some? {
          LeafPathIsPlain(v, p);
          SplitUndoesDotted(p);
          assert Split(Dotted(p)) == p;
        }
      }
      BuildInverts(leaves, v);
    }
  }

  // ---------------------------------------------------------------------------
  // When the keys are not plain
  // ---------------------------------------------------------------------------

  /** No two leaves with different data share a dotted key. */
  ghost predicate NoCollision(v: Value) {
    forall p, q :: LeafAt(v, p).Some? && LeafAt(v, q).Some? && Dotted(p) == Dotted(q) ==> LeafAt(v, p) == LeafAt(v, q)
  }

  /** Whatever the keys: every leaf can be looked up under its dotted key exactly when no two leaves with
      different data share one. */
  lemma LosesNothingExactly(v: Value, flat: map<string, int>)
    requires Flattens("", v, flat)
    ensures (forall p :: LeafAt(v, p).Some? ==> flat[Dotted(p)] == LeafAt(v, p).value) <==> NoCollision(v)
  {
    if NoCollision(v) {
      forall p | LeafAt(v, p).Some? ensures flat[Dotted(p)] == LeafAt(v, p).value {
        assert IsLeafUnder("", v, Dotted(p), flat[Dotted(p)]);
      }
    }
  }

  /** A key with a dot can meet a nested path, and an empty key can vanish. */
  lemma DottedAndEmptyKeysCollide()
    ensures !NoCollision(Nested(map["a.b" := Leaf(1), "a" := Nested(map["b" := Leaf(2)])]))
    ensures !NoCollision(Nested(map["" := Nested(map["a" := Leaf(1)]), "a" := Leaf(2)]))
  {
    var v := Nested(map["a.b" := Leaf(1), "a" := Nested(map["b" := Leaf(2)])]);
    assert LeafAt(v, ["a.b"]) == Some(1);
    assert ["a", "b"][1..] == ["b"];
    assert LeafAt(v, ["a", "b"]) == Some(2);
    assert Dotted(["a.b"]) == "a.b" == Dotted(["a", "b"]);
    var w := Nested(map["" := Nested(map["a" := Leaf(1)]), "a" := Leaf(2)]);
    assert ["", "a"][1..] == ["a"];
    assert LeafAt(w, ["", "a"]) == Some(1);
    assert LeafAt(w, ["a"]) == Some(2);
    assert Dotted(["", "a"]) == "a" == Dotted(["a"]);
  }
}
