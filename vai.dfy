/**
 * Model metadata records and their expansion into artifact filenames.
 *
 * A record lists, per backend, an optional flat capability list and an ordered
 * map of scales; each scale has net templates and a flat block list. The files
 * of a backend are the product scales x nets x block pairs x capability pairs,
 * each taken in the record's own order, and each file name is a net template
 * with its placeholders replaced.
 *
 * JSON objects are kept as sequences of (key, value) entries so that their
 * insertion order, which the expansion follows, is part of the value.
 */
module Vai {
  import opened Wrappers
  import opened Strings

  /** One entry of a backend's `scales` object. A missing `nets` or `blocks` is empty. */
  datatype ScaleSpec = ScaleSpec(nets: seq<string>, blocks: seq<int>)

  /** One entry of a record's `backends` object. A missing `capabilities` or `scales` is empty. */
  datatype BackendSpec = BackendSpec(capabilities: seq<int>, scales: seq<(string, ScaleSpec)>)

  /**
   * A metadata record. `guiName` and `guiDesc` are `gui.name` and `gui.desc`;
   * `version` is the text that `str()` gives for the record's version.
   */
  datatype ModelMeta = ModelMeta(
    shortName: string,
    version: string,
    displayName: Option<string>,
    guiName: Option<string>,
    guiDesc: Option<string>,
    backends: seq<(string, BackendSpec)>)

  /** The `Model` dataclass. */
  datatype Model = Model(id: string, name: string, desc: string, version: string, files: seq<string>)

  const NoDescription := "<no description provided by topaz>"

  /** `d.get(key)` on an ordered map; the keys of a JSON object are distinct. */
  function Lookup<V>(entries: seq<(string, V)>, key: string): (r: Option<V>)
    ensures r.None? <==> forall i :: 0 <= i < |entries| ==> entries[i].0 != key
    ensures r.Some? ==> exists i :: 0 <= i < |entries| && entries[i] == (key, r.value)
  {
    if entries == [] then None
    else if entries[0].0 == key then Some(entries[0].1)
    else Lookup(entries[1..], key)
  }

  /** `permute`: consecutive elements taken two at a time; an odd last element is dropped. */
  function Permute<T>(xs: seq<T>): (ps: seq<(T, T)>)
    ensures |ps| == |xs| / 2
    ensures forall i :: 0 <= i < |ps| ==> ps[i] == (xs[2 * i], xs[2 * i + 1])
    decreases |xs|
  {
    if |xs| < 2 then [] else [(xs[0], xs[1])] + Permute(xs[2..])
  }

  /** The text every file of a record starts with. */
  function FilePrefix(id: string, version: string): string {
    id + "-v" + version + "-"
  }

  /** The placeholders of a net template and their values, in the order `derive_filename` replaces them. */
  function Substitutions(scale: string, width: int, height: int, row: int, column: int): (subs: seq<(string, string)>)
    ensures forall k :: 0 <= k < |subs| ==> |subs[k].0| > 0
  {
    [("[H]", IntToString(height)), ("[W]", IntToString(width)), ("[S]", scale),
     ("[R]", IntToString(row)), ("[C]", IntToString(column))]
  }

  /** `derive_filename`: five sequential replace-alls on the template, then the record prefix. */
  function DeriveFilename(id: string, version: string, net: string, scale: string,
                          width: int, height: int, row: int, column: int): (f: string)
    ensures IsPrefix(FilePrefix(id, version), f)
  {
    FilePrefix(id, version) + ReplaceInOrder(net, Substitutions(scale, width, height, row, column))
  }

  /** How many files one block pair gives: one without capabilities, else one per capability pair. */
  function PerBlock(capabilities: seq<int>): nat {
    if capabilities == [] then 1 else |capabilities| / 2
  }

  /** The capability loop for one block pair (`for row, column in cap_combinations`). */
  function CapFiles(id: string, version: string, net: string, scale: string,
                    width: int, height: int, caps: seq<(int, int)>): (fs: seq<string>)
    ensures |fs| == |caps|
  {
    if caps == [] then []
    else
      [DeriveFilename(id, version, net, scale, width, height, caps[0].0, caps[0].1)]
      + CapFiles(id, version, net, scale, width, height, caps[1..])
  }

  /** Name `j` of the capability loop uses capability pair `j` as (row, column). */
  lemma {:induction false} CapFilesAt(id: string, version: string, net: string, scale: string,
                                      width: int, height: int, caps: seq<(int, int)>, j: nat)
    requires j < |caps|
    ensures CapFiles(id, version, net, scale, width, height, caps)[j]
            == DeriveFilename(id, version, net, scale, width, height, caps[j].0, caps[j].1)
    decreases |caps|
  {
    if j > 0 {
      CapFilesAt(id, version, net, scale, width, height, caps[1..], j - 1);
      assert caps[1..][j - 1] == caps[j];
    }
  }

  /** The files of one (width, height) block pair. */
  function PairFiles(id: string, version: string, net: string, scale: string,
                     width: int, height: int, capabilities: seq<int>): (fs: seq<string>)
    ensures |fs| == PerBlock(capabilities)
    ensures forall f :: f in fs ==> IsPrefix(FilePrefix(id, version), f)
  {
    if capabilities != [] then
      var fs := CapFiles(id, version, net, scale, width, height, Permute(capabilities));
      assert forall f :: f in fs ==> IsPrefix(FilePrefix(id, version), f) by {
        forall f | f in fs ensures IsPrefix(FilePrefix(id, version), f) {
          var j :| 0 <= j < |fs| && fs[j] == f;
          var caps := Permute(capabilities);
          CapFilesAt(id, version, net, scale, width, height, caps, j);
        }
      }
      fs
    else [DeriveFilename(id, version, net, scale, width, height, 0, 0)]
  }

  /** The block loop for one net: the first element of each pair is the width. */
  function BlockFiles(id: string, version: string, net: string, scale: string,
                      blockPairs: seq<(int, int)>, capabilities: seq<int>): (fs: seq<string>)
    ensures forall f :: f in fs ==> IsPrefix(FilePrefix(id, version), f)
  {
    if blockPairs == [] then []
    else
      var (width, height) := blockPairs[0];
      PairFiles(id, version, net, scale, width, height, capabilities)
      + BlockFiles(id, version, net, scale, blockPairs[1..], capabilities)
  }

  /** The files of one net: none when the block list is missing or empty, else the block loop. */
  function NetBlockFiles(id: string, version: string, net: string, scale: string,
                         blocks: seq<int>, capabilities: seq<int>): (fs: seq<string>)
    ensures forall f :: f in fs ==> IsPrefix(FilePrefix(id, version), f)
  {
    if blocks == [] then [] else BlockFiles(id, version, net, scale, Permute(blocks), capabilities)
  }

  /** The net loop of one scale, in the order of its nets. */
  function NetFiles(id: string, version: string, scale: string, nets: seq<string>,
                    blocks: seq<int>, capabilities: seq<int>): (fs: seq<string>)
    ensures forall f :: f in fs ==> IsPrefix(FilePrefix(id, version), f)
  {
    if nets == [] then []
    else NetBlockFiles(id, version, nets[0], scale, blocks, capabilities)
         + NetFiles(id, version, scale, nets[1..], blocks, capabilities)
  }

  /** One more group of `k` adds `k`. */
  lemma CountStep(total: nat, first: nat, rest: nat, m: nat, k: nat)
    requires m > 0 && first == k && rest == (m - 1) * k && total == first + rest
    ensures total == m * k
  {
  }

  /** Every block pair gives the same number of files. */
  lemma {:induction false} BlockFilesCount(id: string, version: string, net: string, scale: string,
                                           blockPairs: seq<(int, int)>, capabilities: seq<int>)
    ensures |BlockFiles(id, version, net, scale, blockPairs, capabilities)| == |blockPairs| * PerBlock(capabilities)
    decreases |blockPairs|
  {
    if blockPairs != [] {
      var pair := PairFiles(id, version, net, scale, blockPairs[0].0, blockPairs[0].1, capabilities);
      var rest := BlockFiles(id, version, net, scale, blockPairs[1..], capabilities);
      assert BlockFiles(id, version, net, scale, blockPairs, capabilities) == pair + rest;
      assert |rest| == (|blockPairs| - 1) * PerBlock(capabilities) by {
        BlockFilesCount(id, version, net, scale, blockPairs[1..], capabilities);
      }
      CountStep(|pair + rest|, |pair|, |rest|, |blockPairs|, PerBlock(capabilities));
    }
  }

  /** Every net of a scale gives the same number of files: block pairs times files per pair. */
  lemma NetCountStep(total: nat, first: nat, rest: nat, m: nat, b: nat, k: nat)
    requires m > 0 && first == b / 2 * k && rest == (m - 1) * (b / 2 * k) && total == first + rest
    ensures total == m * (b / 2 * k)
  {
    CountStep(total, first, rest, m, b / 2 * k);
  }

  /** Each net gives block pairs times files per pair. */
  lemma NetBlockFilesCount(id: string, version: string, net: string, scale: string,
                           blocks: seq<int>, capabilities: seq<int>)
    ensures |NetBlockFiles(id, version, net, scale, blocks, capabilities)| == |blocks| / 2 * PerBlock(capabilities)
  {
    if blocks != [] {
      BlockFilesCount(id, version, net, scale, Permute(blocks), capabilities);
    }
  }

  /** Without capabilities every block pair gives exactly one file. */
  lemma {:induction false} UngatedBlockFilesCount(id: string, version: string, net: string, scale: string,
                                                  blockPairs: seq<(int, int)>)
    ensures |BlockFiles(id, version, net, scale, blockPairs, [])| == |blockPairs|
    decreases |blockPairs|
  {
    if blockPairs != [] {
      UngatedBlockFilesCount(id, version, net, scale, blockPairs[1..]);
    }
  }

  /** Every net of a scale gives the same number of files. */
  lemma {:induction false} NetFilesCount(id: string, version: string, scale: string, nets: seq<string>,
                                         blocks: seq<int>, capabilities: seq<int>)
    ensures |NetFiles(id, version, scale, nets, blocks, capabilities)|
            == |nets| * (|blocks| / 2 * PerBlock(capabilities))
    decreases |nets|
  {
    if nets != [] {
      var here := NetBlockFiles(id, version, nets[0], scale, blocks, capabilities);
      var rest := NetFiles(id, version, scale, nets[1..], blocks, capabilities);
      assert NetFiles(id, version, scale, nets, blocks, capabilities) == here + rest;
      NetBlockFilesCount(id, version, nets[0], scale, blocks, capabilities);
      NetFilesCount(id, version, scale, nets[1..], blocks, capabilities);
      NetCountStep(|here + rest|, |here|, |rest|, |nets|, |blocks|, PerBlock(capabilities));
    }
  }



  /** The scale loop, in the order of the `scales` object. */
  function ScaleFiles(id: string, version: string, scales: seq<(string, ScaleSpec)>,
                      capabilities: seq<int>): (fs: seq<string>)
    ensures forall f :: f in fs ==> IsPrefix(FilePrefix(id, version), f)
  {
    if scales == [] then []
    else NetFiles(id, version, scales[0].0, scales[0].1.nets, scales[0].1.blocks, capabilities)
         + ScaleFiles(id, version, scales[1..], capabilities)
  }

  /** `find_model_files_for_backend`: an unknown backend gives no files. */
  function ModelFiles(meta: ModelMeta, backend: string): (fs: seq<string>)
    ensures forall f :: f in fs ==> IsPrefix(FilePrefix(meta.shortName, meta.version), f)
  {
    match Lookup(meta.backends, backend)
    case None => []
    case Some(spec) => ScaleFiles(meta.shortName, meta.version, spec.scales, spec.capabilities)
  }

  // ---------------------------------------------------------------------------
  // Counting and ordering

  /** The number of files the scales give: per scale, nets x block pairs x files per pair. */
  function ExpectedCount(scales: seq<(string, ScaleSpec)>, capabilities: seq<int>): nat {
    if scales == [] then 0
    else |scales[0].1.nets| * (|scales[0].1.blocks| / 2 * PerBlock(capabilities))
         + ExpectedCount(scales[1..], capabilities)
  }

  lemma {:induction false} ScaleFilesCount(id: string, version: string,
                                           scales: seq<(string, ScaleSpec)>, capabilities: seq<int>)
    ensures |ScaleFiles(id, version, scales, capabilities)| == ExpectedCount(scales, capabilities)
    decreases |scales|
  {
    if scales != [] {
      NetFilesCount(id, version, scales[0].0, scales[0].1.nets, scales[0].1.blocks, capabilities);
      ScaleFilesCount(id, version, scales[1..], capabilities);
    }
  }

  /** The number of files of a record for a backend; none for an unknown backend. */
  lemma ModelFilesCount(meta: ModelMeta, backend: string)
    ensures |ModelFiles(meta, backend)|
            == match Lookup(meta.backends, backend)
               case None => 0
               case Some(spec) => ExpectedCount(spec.scales, spec.capabilities)
  {
    match Lookup(meta.backends, backend)
    case None =>
    case Some(spec) => ScaleFilesCount(meta.shortName, meta.version, spec.scales, spec.capabilities);
  }

  /** A backend whose capability list has a single entry yields no file at all. */
  lemma {:induction false} SingleCapabilityYieldsNothing(scales: seq<(string, ScaleSpec)>, capabilities: seq<int>)
    requires |capabilities| == 1
    ensures ExpectedCount(scales, capabilities) == 0
    decreases |scales|
  {
    if scales != [] { SingleCapabilityYieldsNothing(scales[1..], capabilities); }
  }

  /** Scales whose block lists hold no complete pair (missing, empty or one entry) give no file. */
  lemma {:induction false} NoBlockPairsYieldNothing(scales: seq<(string, ScaleSpec)>, capabilities: seq<int>)
    requires forall k :: 0 <= k < |scales| ==> |scales[k].1.blocks| < 2
    ensures ExpectedCount(scales, capabilities) == 0
    decreases |scales|
  {
    if scales != [] {
      assert |scales[0].1.blocks| / 2 == 0;
      NoBlockPairsYieldNothing(scales[1..], capabilities);
    }
  }

  /** The expansion of a net follows the order of its block pairs. */
  lemma {:induction false} BlockFilesAppend(id: string, version: string, net: string, scale: string,
                                            a: seq<(int, int)>, b: seq<(int, int)>, capabilities: seq<int>)
    ensures BlockFiles(id, version, net, scale, a + b, capabilities)
            == BlockFiles(id, version, net, scale, a, capabilities)
               + BlockFiles(id, version, net, scale, b, capabilities)
    decreases |a|
  {
    if a == [] {
      assert a + b == b;
    } else {
      assert (a + b)[0] == a[0];
      assert (a + b)[1..] == a[1..] + b;
      BlockFilesAppend(id, version, net, scale, a[1..], b, capabilities);
    }
  }

  /** The files of block pair `i` come right after the files of the earlier pairs. */
  lemma BlockFilesPairAt(id: string, version: string, net: string, scale: string,
                         blockPairs: seq<(int, int)>, capabilities: seq<int>, i: nat, j: nat)
    requires i < |blockPairs| && j < PerBlock(capabilities)
    ensures var before := |BlockFiles(id, version, net, scale, blockPairs[..i], capabilities)|;
            && before + j < |BlockFiles(id, version, net, scale, blockPairs, capabilities)|
            && BlockFiles(id, version, net, scale, blockPairs, capabilities)[before + j]
               == PairFiles(id, version, net, scale, blockPairs[i].0, blockPairs[i].1, capabilities)[j]
  {
    var pre, here, tail := blockPairs[..i], blockPairs[i], blockPairs[i..];
    var first := BlockFiles(id, version, net, scale, pre, capabilities);
    var pair := PairFiles(id, version, net, scale, here.0, here.1, capabilities);
    var rest := BlockFiles(id, version, net, scale, tail[1..], capabilities);
    assert BlockFiles(id, version, net, scale, blockPairs, capabilities) == first + (pair + rest) by {
      assert blockPairs == pre + tail;
      BlockFilesAppend(id, version, net, scale, pre, tail, capabilities);
      assert tail[0] == here;
    }
    assert (first + (pair + rest))[|first| + j] == pair[j];
  }

  /** File `j` of a block pair uses capability pair `j` as (row, column). */
  lemma PairFilesAt(id: string, version: string, net: string, scale: string,
                    width: int, height: int, capabilities: seq<int>, j: nat)
    requires capabilities != [] && j < PerBlock(capabilities)
    ensures PairFiles(id, version, net, scale, width, height, capabilities)[j]
            == DeriveFilename(id, version, net, scale, width, height, capabilities[2 * j], capabilities[2 * j + 1])
  {
    CapFilesAt(id, version, net, scale, width, height, Permute(capabilities), j);
    assert Permute(capabilities)[j] == (capabilities[2 * j], capabilities[2 * j + 1]);
  }

  /**
   * Block-major order: the files of block pair `i` come right after the files of the
   * earlier pairs (`i * k` of them by `BlockFilesCount`), one per capability pair in order.
   */
  lemma BlockFilesAt(id: string, version: string, net: string, scale: string,
                     blockPairs: seq<(int, int)>, capabilities: seq<int>, i: nat, j: nat)
    requires capabilities != [] && i < |blockPairs| && j < PerBlock(capabilities)
    ensures var before := |BlockFiles(id, version, net, scale, blockPairs[..i], capabilities)|;
            && before + j < |BlockFiles(id, version, net, scale, blockPairs, capabilities)|
            && BlockFiles(id, version, net, scale, blockPairs, capabilities)[before + j]
               == DeriveFilename(id, version, net, scale, blockPairs[i].0, blockPairs[i].1,
                                 capabilities[2 * j], capabilities[2 * j + 1])
  {
    BlockFilesPairAt(id, version, net, scale, blockPairs, capabilities, i, j);
    PairFilesAt(id, version, net, scale, blockPairs[i].0, blockPairs[i].1, capabilities, j);
  }




  /** Without capabilities, file `i` of a net is block pair `i` with `[R]` and `[C]` rendered as 0. */
  lemma BlockFilesUngatedAt(id: string, version: string, net: string, scale: string,
                            blockPairs: seq<(int, int)>, i: nat)
    requires i < |blockPairs|
    ensures i < |BlockFiles(id, version, net, scale, blockPairs, [])|
    ensures BlockFiles(id, version, net, scale, blockPairs, [])[i]
            == DeriveFilename(id, version, net, scale, blockPairs[i].0, blockPairs[i].1, 0, 0)
  {
    var pre, here, tail := blockPairs[..i], blockPairs[i], blockPairs[i..];
    var first := BlockFiles(id, version, net, scale, pre, []);
    var pair := PairFiles(id, version, net, scale, here.0, here.1, []);
    var rest := BlockFiles(id, version, net, scale, tail[1..], []);
    assert BlockFiles(id, version, net, scale, blockPairs, []) == first + (pair + rest) by {
      assert blockPairs == pre + tail;
      BlockFilesAppend(id, version, net, scale, pre, tail, []);
      assert tail[0] == here;
    }
    assert |first| == i by {
      UngatedBlockFilesCount(id, version, net, scale, pre);
    }
    assert (first + (pair + rest))[i] == pair[0];
  }


  /** The expansion follows the order of the scales: it distributes over concatenation. */
  lemma {:induction false} ScaleFilesAppend(id: string, version: string, a: seq<(string, ScaleSpec)>,
                                            b: seq<(string, ScaleSpec)>, capabilities: seq<int>)
    ensures ScaleFiles(id, version, a + b, capabilities)
            == ScaleFiles(id, version, a, capabilities) + ScaleFiles(id, version, b, capabilities)
    decreases |a|
  {
    if a == [] {
      assert a + b == b;
    } else {
      assert (a + b)[1..] == a[1..] + b;
      ScaleFilesAppend(id, version, a[1..], b, capabilities);
    }
  }

  /** The expansion of a scale follows the order of its nets. */
  lemma {:induction false} NetFilesAppend(id: string, version: string, scale: string, a: seq<string>,
                                          b: seq<string>, blocks: seq<int>, capabilities: seq<int>)
    ensures NetFiles(id, version, scale, a + b, blocks, capabilities)
            == NetFiles(id, version, scale, a, blocks, capabilities)
               + NetFiles(id, version, scale, b, blocks, capabilities)
    decreases |a|
  {
    if a == [] {
      assert a + b == b;
    } else {
      assert (a + b)[1..] == a[1..] + b;
      NetFilesAppend(id, version, scale, a[1..], b, blocks, capabilities);
    }
  }

  // ---------------------------------------------------------------------------
  // Which files occur

  lemma {:induction false} BlockFilesMember(id: string, version: string, net: string, scale: string,
                                            blockPairs: seq<(int, int)>, capabilities: seq<int>, f: string)
    ensures f in BlockFiles(id, version, net, scale, blockPairs, capabilities)
            <==> exists i :: 0 <= i < |blockPairs|
                   && f in PairFiles(id, version, net, scale, blockPairs[i].0, blockPairs[i].1, capabilities)
    decreases |blockPairs|
  {
    if blockPairs != [] {
      var bp, tail := blockPairs, blockPairs[1..];
      var here := PairFiles(id, version, net, scale, bp[0].0, bp[0].1, capabilities);
      var rest := BlockFiles(id, version, net, scale, tail, capabilities);
      assert BlockFiles(id, version, net, scale, bp, capabilities) == here + rest;
      BlockFilesMember(id, version, net, scale, tail, capabilities, f);
      if f in here {
        assert 0 <= 0 < |bp| && f in PairFiles(id, version, net, scale, bp[0].0, bp[0].1, capabilities);
      } else if f in rest {
        var i :| 0 <= i < |tail| && f in PairFiles(id, version, net, scale, tail[i].0, tail[i].1, capabilities);
        assert tail[i] == bp[i + 1];
        assert 0 <= i + 1 < |bp| && f in PairFiles(id, version, net, scale, bp[i + 1].0, bp[i + 1].1, capabilities);
      }
      if exists i :: 0 <= i < |bp| && f in PairFiles(id, version, net, scale, bp[i].0, bp[i].1, capabilities) {
        var i :| 0 <= i < |bp| && f in PairFiles(id, version, net, scale, bp[i].0, bp[i].1, capabilities);
        if i > 0 {
          assert tail[i - 1] == bp[i];
          assert 0 <= i - 1 < |tail| && f in PairFiles(id, version, net, scale, tail[i - 1].0, tail[i - 1].1, capabilities);
        }
      }
    }
  }

  lemma {:induction false} NetFilesMember(id: string, version: string, scale: string, nets: seq<string>,
                                          blocks: seq<int>, capabilities: seq<int>, f: string)
    ensures f in NetFiles(id, version, scale, nets, blocks, capabilities)
            <==> blocks != [] &&
                 exists n :: 0 <= n < |nets|
                   && f in BlockFiles(id, version, nets[n], scale, Permute(blocks), capabilities)
    decreases |nets|
  {
    if nets != [] {
      var tail, pairs := nets[1..], Permute(blocks);
      var here := NetBlockFiles(id, version, nets[0], scale, blocks, capabilities);
      var rest := NetFiles(id, version, scale, tail, blocks, capabilities);
      assert NetFiles(id, version, scale, nets, blocks, capabilities) == here + rest;
      NetFilesMember(id, version, scale, tail, blocks, capabilities, f);
      if blocks != [] {
        if f in here {
          assert 0 <= 0 < |nets| && f in BlockFiles(id, version, nets[0], scale, pairs, capabilities);
        } else if f in rest {
          var n :| 0 <= n < |tail| && f in BlockFiles(id, version, tail[n], scale, pairs, capabilities);
          assert tail[n] == nets[n + 1];
          assert 0 <= n + 1 < |nets| && f in BlockFiles(id, version, nets[n + 1], scale, pairs, capabilities);
        }
        if exists n :: 0 <= n < |nets| && f in BlockFiles(id, version, nets[n], scale, pairs, capabilities) {
          var n :| 0 <= n < |nets| && f in BlockFiles(id, version, nets[n], scale, pairs, capabilities);
          if n > 0 {
            assert tail[n - 1] == nets[n];
            assert 0 <= n - 1 < |tail| && f in BlockFiles(id, version, tail[n - 1], scale, pairs, capabilities);
          }
        }
      }
    }
  }

  lemma {:induction false} ScaleFilesMember(id: string, version: string, scales: seq<(string, ScaleSpec)>,
                                            capabilities: seq<int>, f: string)
    ensures f in ScaleFiles(id, version, scales, capabilities)
            <==> exists k :: 0 <= k < |scales|
                   && f in NetFiles(id, version, scales[k].0, scales[k].1.nets, scales[k].1.blocks, capabilities)
    decreases |scales|
  {
    if scales != [] {
      var sc, tail := scales, scales[1..];
      var here := NetFiles(id, version, sc[0].0, sc[0].1.nets, sc[0].1.blocks, capabilities);
      var rest := ScaleFiles(id, version, tail, capabilities);
      assert ScaleFiles(id, version, sc, capabilities) == here + rest;
      ScaleFilesMember(id, version, tail, capabilities, f);
      if f in here {
        assert 0 <= 0 < |sc| && f in NetFiles(id, version, sc[0].0, sc[0].1.nets, sc[0].1.blocks, capabilities);
      } else if f in rest {
        var k :| 0 <= k < |tail| && f in NetFiles(id, version, tail[k].0, tail[k].1.nets, tail[k].1.blocks, capabilities);
        assert tail[k] == sc[k + 1];
        assert 0 <= k + 1 < |sc|
               && f in NetFiles(id, version, sc[k + 1].0, sc[k + 1].1.nets, sc[k + 1].1.blocks, capabilities);
      }
      if exists k :: 0 <= k < |sc| && f in NetFiles(id, version, sc[k].0, sc[k].1.nets, sc[k].1.blocks, capabilities) {
        var k :| 0 <= k < |sc| && f in NetFiles(id, version, sc[k].0, sc[k].1.nets, sc[k].1.blocks, capabilities);
        if k > 0 {
          assert tail[k - 1] == sc[k];
          assert 0 <= k - 1 < |tail|
                 && f in NetFiles(id, version, tail[k - 1].0, tail[k - 1].1.nets, tail[k - 1].1.blocks, capabilities);
        }
      }
    }
  }

  // ---------------------------------------------------------------------------
  // Records to models

  /** A value Python treats as true: present and not the empty string. */
  predicate Truthy(o: Option<string>) {
    o.Some? && o.value != ""
  }

  /** The first truthy candidate, or `fallback` when there is none. */
  function FirstTruthy(candidates: seq<Option<string>>, fallback: string): string {
    if candidates == [] then fallback
    else if Truthy(candidates[0]) then candidates[0].value
    else FirstTruthy(candidates[1..], fallback)
  }

  /** `parse`: the name is gui.name, else displayName, else shortName, skipping empty ones. */
  function ParseModel(meta: ModelMeta, backend: string): (m: Model)
    ensures m.id == meta.shortName && m.version == meta.version
    ensures m.name == FirstTruthy([meta.guiName, meta.displayName], meta.shortName)
    ensures m.desc == meta.guiDesc.GetOr(NoDescription)
    ensures m.files == ModelFiles(meta, backend)
  {
    var name := meta.guiName;
    var name := if Truthy(name) then name else meta.displayName;
    var name := if Truthy(name) then name.value else meta.shortName;
    assert [meta.guiName, meta.displayName][1..] == [meta.displayName];
    assert FirstTruthy([meta.displayName], meta.shortName)
           == if Truthy(meta.displayName) then meta.displayName.value else FirstTruthy([], meta.shortName);
    Model(meta.shortName, name, meta.guiDesc.GetOr(NoDescription), meta.version, ModelFiles(meta, backend))
  }

  /** `parse` applied to every record, in record order. */
  function ParseAll(metas: seq<ModelMeta>, backend: string): (ms: seq<Model>)
    ensures |ms| == |metas|
    ensures forall i :: 0 <= i < |metas| ==> ms[i] == ParseModel(metas[i], backend)
  {
    seq(|metas|, i requires 0 <= i < |metas| => ParseModel(metas[i], backend))
  }

  /** The models that have files, in their order (`if model.files: yield model`). */
  function WithFiles(ms: seq<Model>): (r: seq<Model>)
    ensures |r| <= |ms|
    ensures forall i :: 0 <= i < |r| ==> r[i].files != []
    ensures forall m :: m in r <==> m in ms && m.files != []
  {
    if ms == [] then [] else (if ms[0].files != [] then [ms[0]] else []) + WithFiles(ms[1..])
  }

  /** `parse_models_metadata`: the models of the records, those without files left out. */
  function ParseModelsMetadata(metas: seq<ModelMeta>, backend: string): (ms: seq<Model>)
    ensures |ms| <= |metas|
    ensures forall i :: 0 <= i < |ms| ==> ms[i].files != []
  {
    WithFiles(ParseAll(metas, backend))
  }

  /** A model is yielded exactly when some record parses to it and it has files. */
  lemma ParseModelsMember(metas: seq<ModelMeta>, backend: string, m: Model)
    ensures m in ParseModelsMetadata(metas, backend)
            <==> m.files != [] && exists i :: 0 <= i < |metas| && m == ParseModel(metas[i], backend)
  {
    var all := ParseAll(metas, backend);
    if m in all {
      var i :| 0 <= i < |all| && all[i] == m;
      assert m == ParseModel(metas[i], backend);
    }
  }

  lemma {:induction false} WithFilesAppend(a: seq<Model>, b: seq<Model>)
    ensures WithFiles(a + b) == WithFiles(a) + WithFiles(b)
    decreases |a|
  {
    if a == [] {
      assert a + b == b;
    } else {
      assert (a + b)[0] == a[0];
      assert (a + b)[1..] == a[1..] + b;
      WithFilesAppend(a[1..], b);
    }
  }

  /** Models keep the order of their records. */
  lemma ParseModelsAppend(a: seq<ModelMeta>, b: seq<ModelMeta>, backend: string)
    ensures ParseModelsMetadata(a + b, backend)
            == ParseModelsMetadata(a, backend) + ParseModelsMetadata(b, backend)
  {
    var pa, pb := ParseAll(a, backend), ParseAll(b, backend);
    assert ParseAll(a + b, backend) == pa + pb by {
      forall i | 0 <= i < |a + b| ensures ParseAll(a + b, backend)[i] == (pa + pb)[i] {
        if i < |a| { assert (a + b)[i] == a[i]; } else { assert (a + b)[i] == b[i - |a|]; }
      }
    }
    WithFilesAppend(pa, pb);
  }

  // ---------------------------------------------------------------------------
  // The include filter of find_backend_files

  /** The wanted `id-version` tokens: comma-separated, blanks trimmed, empty items dropped. */
  function WantSet(includes: Option<string>): (want: set<string>)
    ensures forall w :: w in want ==> w != "" && ',' !in w
    ensures forall w :: w in want ==> !IsSpace(w[0]) && !IsSpace(w[|w| - 1])
  {
    if includes.None? || includes.value == "" then {}
    else
      var parts := Split(includes.value, ',');
      var want := set p | p in parts && Strip(p) != "" :: Strip(p);
      assert forall w :: w in want ==> w != "" && ',' !in w && !IsSpace(w[0]) && !IsSpace(w[|w| - 1]) by {
        forall w | w in want ensures w != "" && ',' !in w && !IsSpace(w[0]) && !IsSpace(w[|w| - 1]) {
          var p :| p in parts && Strip(p) != "" && w == Strip(p);
          var i :| 0 <= i < |parts| && parts[i] == p;
        }
      }
      want
  }

  /** A filter made only of commas and blanks wants nothing, so it keeps every model. */
  lemma BlankFilterWantsNothing(includes: string)
    requires forall i :: 0 <= i < |includes| ==> includes[i] == ',' || IsSpace(includes[i])
    ensures WantSet(Some(includes)) == {}
  {
    if includes != "" {
      var parts := Split(includes, ',');
      forall p | p in parts ensures Strip(p) == "" {
        StringsOfJoin(parts, ',', p);
        assert AllSpace(p) by {
          forall i | 0 <= i < |p| ensures IsSpace(p[i]) {
            assert p[i] in p && p[i] != ',';
          }
        }
        StripAllSpace(p);
      }
    }
  }

  /** `--include a,b,...` naming plain tokens wants exactly those tokens. */
  lemma WantSetOfJoin(tokens: seq<string>)
    requires |tokens| > 0
    requires forall i :: 0 <= i < |tokens| ==> tokens[i] != "" && ',' !in tokens[i] && Strip(tokens[i]) == tokens[i]
    ensures WantSet(Some(Join(tokens, ','))) == set t | t in tokens
  {
    var s := Join(tokens, ',');
    assert s != "" by {
      JoinFirstPart(tokens, ',');
    }
    assert Split(s, ',') == tokens by {
      SplitJoin(tokens, ',');
    }
    var want := WantSet(Some(s));
    assert want == set p | p in tokens && Strip(p) != "" :: Strip(p);
    forall t ensures t in want <==> t in tokens {
      if t in tokens {
        var i :| 0 <= i < |tokens| && tokens[i] == t;
        assert Strip(t) == t && t != "";
      }
      if t in want {
        var p :| p in tokens && Strip(p) != "" && t == Strip(p);
        var i :| 0 <= i < |tokens| && tokens[i] == p;
      }
    }
  }

  /** Every character of a joined part occurs in the joined text. */
  lemma {:induction false} StringsOfJoin(parts: seq<string>, sep: char, p: string)
    requires |parts| > 0 && p in parts
    ensures forall c :: c in p ==> c in Join(parts, sep)
    decreases |parts|
  {
    if |parts| > 1 && p != parts[0] {
      StringsOfJoin(parts[1..], sep, p);
    }
  }

  /** The token a model is selected by: the id, a dash and the version, with no `v`. */
  function ModelKey(m: Model): string {
    m.id + "-" + m.version
  }

  predicate Selected(m: Model, want: set<string>) {
    want == {} || ModelKey(m) in want
  }

  function SelectModels(ms: seq<Model>, want: set<string>): (r: seq<Model>)
    ensures forall m :: m in r <==> m in ms && Selected(m, want)
    ensures want == {} ==> r == ms
  {
    if ms == [] then []
    else (if Selected(ms[0], want) then [ms[0]] else []) + SelectModels(ms[1..], want)
  }

  /** The files of the models, one model after another. */
  function AllFiles(ms: seq<Model>): (fs: seq<string>)
    ensures forall f :: f in fs <==> exists m :: m in ms && f in m.files
  {
    if ms == [] then [] else ms[0].files + AllFiles(ms[1..])
  }

  /** The filter keeps the models' order: it works model by model. */
  lemma {:induction false} SelectModelsAppend(a: seq<Model>, b: seq<Model>, want: set<string>)
    ensures SelectModels(a + b, want) == SelectModels(a, want) + SelectModels(b, want)
    decreases |a|
  {
    if a == [] {
      assert a + b == b;
    } else {
      assert (a + b)[0] == a[0];
      assert (a + b)[1..] == a[1..] + b;
      SelectModelsAppend(a[1..], b, want);
    }
  }

  /** The files of consecutive model lists come one list after the other. */
  lemma {:induction false} AllFilesAppend(a: seq<Model>, b: seq<Model>)
    ensures AllFiles(a + b) == AllFiles(a) + AllFiles(b)
    decreases |a|
  {
    if a == [] {
      assert a + b == b;
    } else {
      assert (a + b)[0] == a[0];
      assert (a + b)[1..] == a[1..] + b;
      AllFilesAppend(a[1..], b);
    }
  }

  /** `find_backend_files`. */
  function FindBackendFiles(metas: seq<ModelMeta>, backend: string, includes: Option<string>): (fs: seq<string>)
    ensures includes.None? ==> fs == AllFiles(ParseModelsMetadata(metas, backend))
  {
    AllFiles(SelectModels(ParseModelsMetadata(metas, backend), WantSet(includes)))
  }

  /** The listing follows the records: the files of `a + b` are those of `a`, then those of `b`. */
  lemma FindBackendFilesAppend(a: seq<ModelMeta>, b: seq<ModelMeta>, backend: string, includes: Option<string>)
    ensures FindBackendFiles(a + b, backend, includes)
            == FindBackendFiles(a, backend, includes) + FindBackendFiles(b, backend, includes)
  {
    var want := WantSet(includes);
    var pa, pb := ParseModelsMetadata(a, backend), ParseModelsMetadata(b, backend);
    ParseModelsAppend(a, b, backend);
    SelectModelsAppend(pa, pb, want);
    AllFilesAppend(SelectModels(pa, want), SelectModels(pb, want));
  }

  /** The filter chain on one model: its files when it has some and is selected, else nothing. */
  lemma SelectOne(m: Model, want: set<string>)
    ensures AllFiles(SelectModels(WithFiles([m]), want))
            == if m.files != [] && Selected(m, want) then m.files else []
  {
    assert [m][1..] == [];
    assert WithFiles([m]) == if m.files != [] then [m] else [];
    if m.files != [] && Selected(m, want) {
      assert SelectModels([m], want) == [m];
      assert AllFiles([m]) == m.files + [];
    }
  }

  /** One record lists its files, in their order, when it has any and the filter selects it. */
  lemma FindBackendFilesOne(meta: ModelMeta, backend: string, includes: Option<string>)
    ensures var m := ParseModel(meta, backend);
            FindBackendFiles([meta], backend, includes)
            == if m.files != [] && Selected(m, WantSet(includes)) then m.files else []
  {
    assert ParseAll([meta], backend) == [ParseModel(meta, backend)];
    SelectOne(ParseModel(meta, backend), WantSet(includes));
  }


  /** A file is listed exactly when a selected model with files has it. */
  lemma FindBackendFilesMember(metas: seq<ModelMeta>, backend: string, includes: Option<string>, f: string)
    ensures f in FindBackendFiles(metas, backend, includes)
            <==> exists i :: 0 <= i < |metas|
                   && Selected(ParseModel(metas[i], backend), WantSet(includes))
                   && f in ModelFiles(metas[i], backend)
  {
    var ms := ParseModelsMetadata(metas, backend);
    var want := WantSet(includes);
    var chosen := SelectModels(ms, want);
    assert FindBackendFiles(metas, backend, includes) == AllFiles(chosen);
    if f in AllFiles(chosen) {
      var m :| m in chosen && f in m.files;
      assert m in ms && Selected(m, want);
      ParseModelsMember(metas, backend, m);
      var i :| 0 <= i < |metas| && m == ParseModel(metas[i], backend) && m.files != [];
      assert f in ModelFiles(metas[i], backend);
    }
    if exists i :: 0 <= i < |metas| && Selected(ParseModel(metas[i], backend), want)
                   && f in ModelFiles(metas[i], backend) {
      var i :| 0 <= i < |metas| && Selected(ParseModel(metas[i], backend), want)
               && f in ModelFiles(metas[i], backend);
      var m := ParseModel(metas[i], backend);
      assert m.files != [];
      ParseModelsMember(metas, backend, m);
      assert m in ms;
      assert m in chosen;
    }
  }

  /** An absent or blank filter lists the files of every model, in record order. */
  lemma NoFilterKeepsAll(metas: seq<ModelMeta>, backend: string, includes: Option<string>)
    requires WantSet(includes) == {}
    ensures FindBackendFiles(metas, backend, includes) == AllFiles(ParseModelsMetadata(metas, backend))
  {
  }
}
