/**
 One configuration file per name, merged from the software, the blueprint and the request
 (GetConfigFiles in protocube/server/config_parser.go). A missing layer is an empty one.
 */
module ConfigLayers {
  import opened Wrappers
  import opened Sequences
  import opened Flatten

  datatype ConfigFile = ConfigFile(parser: string, find: map<string, Value>)

  type Layer = map<string, ConfigFile>

  /** A file ready to be applied: its name, its parser and its flattened replacements. */
  datatype Replacements = Replacements(fileName: string, parser: string, replace: map<string, int>)

  /** The last layer that has the file. */
  function LastWith(layers: seq<Layer>, file: string): Option<ConfigFile> {
    if layers == [] then None
    else if file in layers[|layers| - 1] then Some(layers[|layers| - 1][file])
    else LastWith(layers[..|layers| - 1], file)
  }

  /** The value of a key in the last layer whose file has it. */
  function LastFind(layers: seq<Layer>, file: string, key: string): Option<Value> {
    if layers == [] then None
    else
      var last := layers[|layers| - 1];
      if file in last && key in last[file].find then Some(last[file].find[key])
      else LastFind(layers[..|layers| - 1], file, key)
  }

  /** What a merge of the layers must come to, file by file and key by key. */
  ghost predicate Merges(layers: seq<Layer>, merged: Layer) {
    forall file :: FileMerges(layers, merged, file)
  }

  ghost predicate FileMerges(layers: seq<Layer>, merged: Layer, file: string) {
    match LastWith(layers, file)
    case None => file !in merged
    case Some(last) =>
      file in merged && merged[file].parser == last.parser
      && forall key :: KeyMerges(layers, merged[file].find, file, key)
  }

  ghost predicate KeyMerges(layers: seq<Layer>, find: map<string, Value>, file: string, key: string) {
    LastFind(layers, file, key) == if key in find then Some(find[key]) else None
  }

  /** What that means of three layers: the overrides win over the blueprint, and the blueprint over the software. */
  lemma LayersMean(software: Layer, blueprint: Layer, overrides: Layer, merged: Layer, file: string, key: string)
    requires Merges([software, blueprint, overrides], merged)
    ensures file in merged <==> file in software || file in blueprint || file in overrides
    ensures file in merged ==>
              merged[file].parser == if file in overrides then overrides[file].parser
                                     else if file in blueprint then blueprint[file].parser
                                     else software[file].parser
    ensures file in merged ==>
              (if key in merged[file].find then Some(merged[file].find[key]) else None)
              == if file in overrides && key in overrides[file].find then Some(overrides[file].find[key])
                 else if file in blueprint && key in blueprint[file].find then Some(blueprint[file].find[key])
                 else if file in software && key in software[file].find then Some(software[file].find[key])
                 else None
  {
    var two, three := [software, blueprint], [software, blueprint, overrides];
    assert [] + [software] == [software] && [software] + [blueprint] == two && two + [overrides] == three;
    LayersWithPart([], software, file, key);
    LayersWithPart([software], blueprint, file, key);
    LayersWithPart(two, overrides, file, key);
    assert FileMerges(three, merged, file);
    if file in merged {
      assert KeyMerges(three, merged[file].find, file, key);
    }
  }

  function AddFile(merged: Layer, file: string, config: ConfigFile): Layer {
    merged[file := ConfigFile(config.parser, (if file in merged then merged[file].find else map[]) + config.find)]
  }

  /** The files of a layer that have been visited. */
  function Part(layer: Layer, files: set<string>): Layer {
    map f | f in layer && f in files :: layer[f]
  }

  lemma LayersWithPart(layers: seq<Layer>, layer: Layer, file: string, key: string)
    ensures LastWith(layers + [layer], file) == if file in layer then Some(layer[file]) else LastWith(layers, file)
    ensures LastFind(layers + [layer], file, key)
            == if file in layer && key in layer[file].find then Some(layer[file].find[key])
               else LastFind(layers, file, key)
  {
    assert (layers + [layer])[..|layers|] == layers;
  }

  lemma {:induction false} NoFileNoFind(layers: seq<Layer>, file: string, key: string)
    ensures LastWith(layers, file) == None ==> LastFind(layers, file, key) == None
  {
    if layers != [] {
      NoFileNoFind(layers[..|layers| - 1], file, key);
    }
  }

  lemma AddedFileMerges(layers: seq<Layer>, layer: Layer, done: set<string>, merged: Layer, file: string)
    requires file in layer && file !in done && Merges(layers + [Part(layer, done)], merged)
    ensures Merges(layers + [Part(layer, done + {file})], AddFile(merged, file, layer[file]))
  {
    var before, after := Part(layer, done), Part(layer, done + {file});
    var merged' := AddFile(merged, file, layer[file]);
    forall f ensures FileMerges(layers + [after], merged', f) {
      assert FileMerges(layers + [before], merged, f);
      LayersWithPart(layers, before, f, "");
      LayersWithPart(layers, after, f, "");
      if f == file {
        forall key ensures KeyMerges(layers + [after], merged'[file].find, file, key) {
          OneKey(layers, layer, before, after, merged, file, key);
        }
      } else if f in merged {
        forall key ensures KeyMerges(layers + [after], merged'[f].find, f, key) {
          assert KeyMerges(layers + [before], merged[f].find, f, key);
          LayersWithPart(layers, before, f, key);
          LayersWithPart(layers, after, f, key);
        }
      }
    }
  }

  lemma OneKey(layers: seq<Layer>, layer: Layer, before: Layer, after: Layer, merged: Layer, file: string, key: string)
    requires file in layer && file !in before && file in after && after[file] == layer[file]
    requires FileMerges(layers + [before], merged, file)
    ensures KeyMerges(layers + [after], AddFile(merged, file, layer[file])[file].find, file, key)
  {
    LayersWithPart(layers, before, file, key);
    LayersWithPart(layers, after, file, key);
    NoFileNoFind(layers, file, key);
    if file in merged {
      assert KeyMerges(layers + [before], merged[file].find, file, key);
    }
  }

  /** Every file once. */
  ghost predicate ListsOnce(order: seq<string>, files: set<string>) {
    (forall f :: f in order <==> f in files) && Distinct(order)
  }

  lemma FileAfter(layers: seq<Layer>, layer: Layer, before: Layer, merged: Layer, file: string)
    requires FileMerges(layers, before, file) && FileMerges(layers + [layer], merged, file)
    ensures file in merged <==> file in before || file in layer
  {
    LayersWithPart(layers, layer, file, "");
  }

  lemma KeysAfter(layers: seq<Layer>, layer: Layer, before: Layer, merged: Layer)
    requires Merges(layers, before) && Merges(layers + [layer], merged)
    ensures merged.Keys == before.Keys + layer.Keys
  {
    forall file ensures file in merged <==> file in before || file in layer {
      assert FileMerges(layers, before, file) && FileMerges(layers + [layer], merged, file);
      FileAfter(layers, layer, before, merged, file);
    }
  }

  method AddLayer(ghost layers: seq<Layer>, layer: Layer, merged: Layer, order: seq<string>)
    returns (merged': Layer, order': seq<string>)
    requires Merges(layers, merged) && ListsOnce(order, merged.Keys)
    ensures Merges(layers + [layer], merged') && ListsOnce(order', merged'.Keys)
    ensures order <= order'
  {
    merged', order' := merged, order;
    var files := layer.Keys;
    ghost var done: set<string> := {};
    forall f ensures FileMerges(layers + [Part(layer, {})], merged, f) {
      NothingAdded(layers, layer, merged, f);
    }
    while files != {}
      invariant files + done == layer.Keys && files !! done
      invariant Merges(layers + [Part(layer, done)], merged')
      invariant ListsOnce(order', merged'.Keys) && order <= order'
      decreases |files|
    {
      var file :| file in files;
      AddedFileMerges(layers, layer, done, merged', file);
      if file !in merged' {
        order' := order' + [file];
      }
      merged' := AddFile(merged', file, layer[file]);
      files := files - {file};
      done := done + {file};
    }
    assert Part(layer, done) == layer;
  }

  lemma NothingAdded(layers: seq<Layer>, layer: Layer, merged: Layer, file: string)
    requires FileMerges(layers, merged, file)
    ensures FileMerges(layers + [Part(layer, {})], merged, file)
  {
    LayersWithPart(layers, Part(layer, {}), file, "");
    if file in merged {
      forall key ensures KeyMerges(layers + [Part(layer, {})], merged[file].find, file, key) {
        assert KeyMerges(layers, merged[file].find, file, key);
        LayersWithPart(layers, Part(layer, {}), file, key);
      }
    }
  }

  method MergeLayers(software: Layer, blueprint: Layer, overrides: Layer) returns (merged: Layer, order: seq<string>)
    ensures Merges([software, blueprint, overrides], merged) && ListsOnce(order, merged.Keys)
    ensures InLayerOrder(order, software.Keys, blueprint.Keys)
  {
    var first, second;
    merged, first := AddLayer([], software, map[], []);
    KeysAfter([], software, map[], merged);
    ghost var one := merged;
    merged, second := AddLayer([] + [software], blueprint, merged, first);
    KeysAfter([] + [software], blueprint, one, merged);
    assert ToSet(first) == software.Keys && ToSet(second) == software.Keys + blueprint.Keys;
    merged, order := AddLayer([] + [software] + [blueprint], overrides, merged, second);
    assert [] + [software] + [blueprint] + [overrides] == [software, blueprint, overrides];
    Ordered(first, second, order, software.Keys, blueprint.Keys);
  }

  /** Each file of any layer comes out exactly once, with the parser of the last layer that has it and, for
      every top-level key, the value of the last layer that has the key; nested maps are replaced whole. */
  method GetConfigFiles(software: Layer, blueprint: Layer, overrides: Layer) returns (files: seq<Replacements>)
    ensures var layers := [software, blueprint, overrides];
            exists merged ::
              Merges(layers, merged)
              && ListsOnce(seq(|files|, i requires 0 <= i < |files| => files[i].fileName), merged.Keys)
              && forall i :: 0 <= i < |files| ==> Applies(files[i], merged)
    ensures InLayerOrder(seq(|files|, i requires 0 <= i < |files| => files[i].fileName), software.Keys, blueprint.Keys)
  {
    var merged, order := MergeLayers(software, blueprint, overrides);
    files := [];
    for i := 0 to |order|
      invariant |files| == i
      invariant forall j :: 0 <= j < i ==> files[j].fileName == order[j] && Applies(files[j], merged)
    {
      assert order[i] in order;
      var m := merged[order[i]];
      var flat := FlattenMap("", Nested(m.find));
      files := files + [Replacements(order[i], m.parser, flat)];
    }
    assert seq(|files|, i requires 0 <= i < |files| => files[i].fileName) == order;
  }

  /** The files of the software come first, then those that only the blueprint and then those that only the
      overrides have. */
  ghost predicate InLayerOrder(names: seq<string>, software: set<string>, blueprint: set<string>) {
    exists i, j :: 0 <= i <= j <= |names| && ToSet(names[..i]) == software && ToSet(names[..j]) == software + blueprint
  }

  lemma Ordered(first: seq<string>, second: seq<string>, names: seq<string>, software: set<string>, blueprint: set<string>)
    requires first <= second <= names && ToSet(first) == software && ToSet(second) == software + blueprint
    ensures InLayerOrder(names, software, blueprint)
  {
    assert names[..|first|] == first && names[..|second|] == second;
  }

  ghost predicate Applies(r: Replacements, merged: Layer) {
    r.fileName in merged && r.parser == merged[r.fileName].parser
    && Flattens("", Nested(merged[r.fileName].find), r.replace)
  }
}
