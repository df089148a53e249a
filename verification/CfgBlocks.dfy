/** Basic blocks of a microcode image, from its dispatch table, branches and padding. */
module CfgBlocks {
  import opened Bytes
  import opened Options
  import opened CfgMap

  const SLOTS: nat := 24
  const PAD_MIN: nat := 4

  /** A branch word and where it is. */
  datatype Terminator = Terminator(at: nat, branch: Branch)

  /** A block, with the closest branch to its end if it has one. */
  datatype Block = Block(first: nat, last: nat, terminator: Option<Terminator>)

  /** Dispatch slot k targets word t. */
  predicate DispatchTarget(words: seq<u32>, k: nat, t: nat) {
    && k < SLOTS && k * 2 < |words| && Prefix(words[k * 2]) == ABS_PREFIX
    && t == TABLE_WORDS + Low(words[k * 2]) && t < |words|
  }

  /** The four kinds of block start. */
  ghost predicate IsStart(words: seq<u32>, info: map<nat, Branch>, pads: seq<Run>, t: nat) {
    && t < |words|
    && (|| (exists k: nat :: DispatchTarget(words, k, t))
        || (exists i :: i in info && info[i].target == Some(t))
        || (t > 0 && t - 1 in info)
        || (exists r :: r in pads && (t == r.0 || t == r.1 + 1)))
  }

  method DispatchStarts(words: seq<u32>) returns (starts: set<nat>)
    requires |words| >= 2 * SLOTS - 1
    ensures forall t :: t in starts <==> exists k: nat :: DispatchTarget(words, k, t)
  {
    starts := {};
    var k: nat := 0;
    while k < SLOTS
      invariant k <= SLOTS
      invariant forall t :: t in starts <==> exists j: nat :: j < k && DispatchTarget(words, j, t)
    {
      var w := words[k * 2];
      ghost var before := starts;
      if Prefix(w) == ABS_PREFIX && TABLE_WORDS + Low(w) < |words| {
        starts := starts + {TABLE_WORDS + Low(w)};
        assert DispatchTarget(words, k, TABLE_WORDS + Low(w));
      }
      forall t ensures t in starts <==> exists j: nat :: j < k + 1 && DispatchTarget(words, j, t) {
        if t in before {
          var j: nat :| j < k && DispatchTarget(words, j, t);
          assert j < k + 1;
        }
      }
      k := k + 1;
    }
  }

  /** Targets and fall-throughs of the branches among the first n words. */
  ghost predicate BranchStart(info: map<nat, Branch>, size: nat, n: nat, t: nat) {
    || (exists i :: i in info && i < n && info[i].target == Some(t))
    || (0 < t < size && t - 1 < n && t - 1 in info)
  }

  method BranchStarts(words: seq<u32>, info: map<nat, Branch>) returns (starts: set<nat>)
    ensures forall t :: t in starts <==> BranchStart(info, |words|, |words|, t)
  {
    starts := {};
    var i: nat := 0;
    while i < |words|
      invariant i <= |words|
      invariant forall t :: t in starts <==> BranchStart(info, |words|, i, t)
    {
      ghost var before := starts;
      if i in info {
        if info[i].target.Some? {
          starts := starts + {info[i].target.value};
        }
        if i + 1 < |words| {
          starts := starts + {i + 1};
        }
      }
      forall t ensures t in starts <==> BranchStart(info, |words|, i + 1, t) {
        assert t in before <==> BranchStart(info, |words|, i, t);
      }
      i := i + 1;
    }
  }

  ghost predicate PadStart(pads: seq<Run>, size: nat, n: nat, t: nat)
    requires n <= |pads|
  {
    exists k :: 0 <= k < n && (t == pads[k].0 || (t == pads[k].1 + 1 && t < size))
  }

  method PadStarts(size: nat, pads: seq<Run>) returns (starts: set<nat>)
    ensures forall t :: t in starts <==> PadStart(pads, size, |pads|, t)
  {
    starts := {};
    var k: nat := 0;
    while k < |pads|
      invariant k <= |pads|
      invariant forall t :: t in starts <==> PadStart(pads, size, k, t)
    {
      starts := starts + {pads[k].0};
      if pads[k].1 + 1 < size {
        starts := starts + {pads[k].1 + 1};
      }
      k := k + 1;
    }
  }

  ghost predicate Ascending(s: seq<nat>) {
    forall i, j :: 0 <= i < j < |s| ==> s[i] < s[j]
  }

  /** sorted() of a set of word numbers. */
  method Sorted(starts: set<nat>, size: nat) returns (s: seq<nat>)
    ensures Ascending(s) && forall t :: t in s <==> t in starts && t < size
  {
    s := [];
    var t: nat := 0;
    while t < size
      invariant t <= size && Ascending(s)
      invariant forall x :: x in s <==> x in starts && x < t
    {
      if t in starts {
        assert forall i :: 0 <= i < |s| ==> s[i] in s;
        s := s + [t];
      }
      t := t + 1;
    }
  }

  /** The last branch from s to e. */
  method LastBranch(info: map<nat, Branch>, s: nat, e: nat) returns (end: Option<Terminator>)
    requires s <= e
    ensures Ends(Block(s, e, end), info)
  {
    var i := e;
    while i >= s
      invariant s - 1 <= i <= e
      invariant forall j: nat :: i < j <= e ==> j !in info
    {
      if i in info {
        return Some(Terminator(i, info[i]));
      }
      i := i - 1;
    }
    return None;
  }

  /** The blocks lie end to end from the first start to the last word. */
  ghost predicate Tiles(blocks: seq<Block>, starts: seq<nat>, size: nat) {
    && |blocks| == |starts|
    && (forall k :: 0 <= k < |blocks| ==> blocks[k].first == starts[k] <= blocks[k].last < size)
    && (forall k :: 0 <= k < |blocks| - 1 ==> blocks[k].last + 1 == blocks[k + 1].first)
    && (blocks != [] ==> blocks[|blocks| - 1].last == size - 1)
  }

  /** A block's terminator is the branch nearest its end, with its kind and target. */
  ghost predicate Ends(b: Block, info: map<nat, Branch>) {
    match b.terminator
    case Some(t) =>
      && b.first <= t.at <= b.last && t.at in info && t.branch == info[t.at]
      && forall j: nat :: t.at < j <= b.last ==> j !in info
    case None => forall j: nat :: b.first <= j <= b.last ==> j !in info
  }

  /** The last word of block k. */
  function LastWord(starts: seq<nat>, size: nat, k: nat): int
    requires k < |starts|
  {
    if k + 1 < |starts| then starts[k + 1] - 1 else size - 1
  }

  /** The blocks of the first starts. */
  ghost predicate CutTo(blocks: seq<Block>, starts: seq<nat>, size: nat, info: map<nat, Branch>) {
    && |blocks| <= |starts|
    && forall j :: 0 <= j < |blocks| ==>
         blocks[j].first == starts[j] && blocks[j].last == LastWord(starts, size, j) && Ends(blocks[j], info)
  }

  lemma LastWordFits(starts: seq<nat>, size: nat, k: nat)
    requires Ascending(starts) && (forall t :: t in starts ==> t < size) && k < |starts|
    ensures starts[k] <= LastWord(starts, size, k) < size
  {
    assert starts[k] in starts;
    if k + 1 < |starts| { assert starts[k + 1] in starts; }
  }

  lemma CutTiles(blocks: seq<Block>, starts: seq<nat>, size: nat, info: map<nat, Branch>)
    requires Ascending(starts) && (forall t :: t in starts ==> t < size)
    requires CutTo(blocks, starts, size, info) && |blocks| == |starts|
    ensures Tiles(blocks, starts, size)
    ensures forall k :: 0 <= k < |blocks| ==> Ends(blocks[k], info)
  {
    hide Ends, Ascending;
    forall k | 0 <= k < |blocks| ensures blocks[k].first == starts[k] <= blocks[k].last < size {
      LastWordFits(starts, size, k);
    }
  }

  method Cut(starts: seq<nat>, size: nat, info: map<nat, Branch>) returns (blocks: seq<Block>)
    requires Ascending(starts) && forall t :: t in starts ==> t < size
    ensures Tiles(blocks, starts, size)
    ensures forall k :: 0 <= k < |blocks| ==> Ends(blocks[k], info)
  {
    hide Ascending, Ends, Tiles;
    blocks := [];
    while |blocks| < |starts|
      invariant CutTo(blocks, starts, size, info)
    {
      var k := |blocks|;
      LastWordFits(starts, size, k);
      var e: nat := LastWord(starts, size, k);
      var end := LastBranch(info, starts[k], e);
      blocks := blocks + [Block(starts[k], e, end)];
    }
    CutTiles(blocks, starts, size, info);
  }

  /** The block map of an image; shorter images than the dispatch table raise IndexError. */
  method BuildBlocks(words: seq<u32>)
    returns (blocks: Option<seq<Block>>, ghost info: map<nat, Branch>, ghost pads: seq<Run>, ghost starts: seq<nat>)
    ensures blocks.None? <==> |words| < 47
    ensures Info(words, |words|, info) && Closed(IsPad(words), 0, |words|, 4, pads)
    ensures blocks.Some? ==> IsMap(words, info, pads, starts, blocks.value)
  {
    hide Closed, Info, Tiles, Ends;
    var branches := Classify(words);
    var runs := PadRuns(words, PAD_MIN);
    info, pads, starts := branches, runs, [];
    if |words| < 2 * SLOTS - 1 {
      blocks := None;
      return;
    }
    var dispatch := DispatchStarts(words);
    var branch := BranchStarts(words, branches);
    var pad := PadStarts(|words|, runs);
    var ordered := Sorted(dispatch + branch + pad, |words|);
    starts := ordered;
    forall t ensures t in starts <==> IsStart(words, info, pads, t) {
      StartKinds(words, info, pads, dispatch, branch, pad, t);
    }
    var list := Cut(ordered, |words|, branches);
    blocks := Some(list);
  }

  lemma StartKinds(words: seq<u32>, info: map<nat, Branch>, pads: seq<Run>, dispatch: set<nat>, branch: set<nat>,
                   pad: set<nat>, t: nat)
    requires Info(words, |words|, info)
    requires t in dispatch <==> exists k: nat :: DispatchTarget(words, k, t)
    requires t in branch <==> BranchStart(info, |words|, |words|, t)
    requires t in pad <==> PadStart(pads, |words|, |pads|, t)
    ensures (t in dispatch + branch + pad && t < |words|) <==> IsStart(words, info, pads, t)
  {
  }

  /** A finished block map. */
  ghost predicate IsMap(words: seq<u32>, info: map<nat, Branch>, pads: seq<Run>, starts: seq<nat>, blocks: seq<Block>) {
    && Info(words, |words|, info)
    && Ascending(starts) && (forall t :: t in starts <==> IsStart(words, info, pads, t))
    && Tiles(blocks, starts, |words|)
    && forall k :: 0 <= k < |blocks| ==> Ends(blocks[k], info)
  }

  /** A block holds at most one branch word, its last, and that is its terminator. */
  lemma OneBranchPerBlock(words: seq<u32>, info: map<nat, Branch>, pads: seq<Run>, starts: seq<nat>,
                          blocks: seq<Block>, k: nat, i: nat)
    requires IsMap(words, info, pads, starts, blocks) && k < |blocks| && blocks[k].first <= i <= blocks[k].last
    ensures i in info ==> i == blocks[k].last
    ensures var last := blocks[k].last;
            blocks[k].terminator == if last in info then Some(Terminator(last, info[last])) else None
  {
    BranchEndsBlock(words, info, pads, starts, blocks, k, i);
    var b := blocks[k];
    assert Ends(b, info);
    if b.terminator.Some? {
      BranchEndsBlock(words, info, pads, starts, blocks, k, b.terminator.value.at);
    }
  }

  lemma BranchEndsBlock(words: seq<u32>, info: map<nat, Branch>, pads: seq<Run>, starts: seq<nat>, blocks: seq<Block>,
                        k: nat, i: nat)
    requires IsMap(words, info, pads, starts, blocks) && k < |blocks| && blocks[k].first <= i <= blocks[k].last
    ensures i in info ==> i == blocks[k].last
  {
    if i in info && i < blocks[k].last {
      assert IsStart(words, info, pads, i + 1);
      var j :| 0 <= j < |starts| && starts[j] == i + 1;
      NoStartInside(words, info, pads, starts, blocks, k, j);
    }
  }

  /** No block start lies inside a block. */
  lemma NoStartInside(words: seq<u32>, info: map<nat, Branch>, pads: seq<Run>, starts: seq<nat>, blocks: seq<Block>,
                      k: nat, j: nat)
    requires IsMap(words, info, pads, starts, blocks) && k < |blocks| && j < |starts|
    ensures starts[j] <= blocks[k].first || blocks[k].last < starts[j]
  {
    if k < j {
      assert blocks[k + 1].first == starts[k + 1] == blocks[k].last + 1;
      assert starts[k + 1] <= starts[j];
    } else {
      assert starts[j] <= starts[k];
    }
  }

  /** Every resolved target in the image, and every word after a branch, starts a block. */
  lemma TargetsStartBlocks(words: seq<u32>, info: map<nat, Branch>, pads: seq<Run>, starts: seq<nat>,
                           blocks: seq<Block>, i: nat)
    requires IsMap(words, info, pads, starts, blocks) && i < |words| && BranchAt(words, i).Some?
    ensures var b := BranchAt(words, i).value;
            b.target.Some? && b.target.value < |words| ==> exists k :: 0 <= k < |blocks| && blocks[k].first == b.target.value
    ensures i + 1 < |words| ==> exists k :: 0 <= k < |blocks| && blocks[k].first == i + 1
  {
    hide BranchAt;
    assert i in info;
    var b := BranchAt(words, i).value;
    if b.target.Some? && b.target.value < |words| {
      assert IsStart(words, info, pads, b.target.value);
      FirstOf(starts, blocks, |words|, b.target.value);
    }
    if i + 1 < |words| {
      assert IsStart(words, info, pads, i + 1);
      FirstOf(starts, blocks, |words|, i + 1);
    }
  }

  /** A run of four or more all-ones words that something follows, as long as it gets. */
  ghost predicate PadRun(words: seq<u32>, s: nat, e: nat) {
    && s <= e && e + 1 < |words| && e - s + 1 >= 4
    && (forall j: nat :: s <= j <= e ==> PadWord(words, j))
    && (s > 0 ==> !PadWord(words, s - 1)) && !PadWord(words, e + 1)
  }

  ghost predicate BranchesTo(words: seq<u32>, i: nat, t: nat) {
    i < |words| && BranchAt(words, i).Some? && BranchAt(words, i).value.target == Some(t)
  }

  lemma PadsAre(words: seq<u32>, pads: seq<Run>, s: nat, e: nat)
    requires Closed(IsPad(words), 0, |words|, 4, pads)
    ensures (s, e) in pads <==> PadRun(words, s, e)
  {
    PadRunsAre(words, 4, pads, s, e);
  }

  /** A dispatch slot is a branch word, so what it targets is a branch target too. */
  lemma DispatchIsBranch(words: seq<u32>, k: nat, t: nat)
    requires DispatchTarget(words, k, t)
    ensures BranchesTo(words, k * 2, t)
  {
    hide REL_PREFIXES;
  }

  /**
   * The block starts, from the words alone: what some branch word resolves to, what follows one, and
   * the bounds of padding. The dispatch table adds no start that its words, as branches, do not.
   */
  lemma StartsAre(words: seq<u32>, info: map<nat, Branch>, pads: seq<Run>, starts: seq<nat>, blocks: seq<Block>, t: nat)
    requires IsMap(words, info, pads, starts, blocks) && Closed(IsPad(words), 0, |words|, 4, pads) && t < |words|
    ensures (exists k :: 0 <= k < |blocks| && blocks[k].first == t) <==>
              || (exists i: nat :: BranchesTo(words, i, t))
              || (t > 0 && BranchAt(words, t - 1).Some?)
              || (exists s: nat, e: nat :: PadRun(words, s, e) && (t == s || t == e + 1))
  {
    hide BranchAt, Closed, PadRun, Ends, IsPad, DispatchTarget;
    BlocksBegin(starts, blocks, |words|, t);
    assert t in starts <==> IsStart(words, info, pads, t);
    InfoStarts(words, info, t);
    forall k: nat | DispatchTarget(words, k, t) ensures BranchesTo(words, k * 2, t) {
      DispatchIsBranch(words, k, t);
    }
    forall s: nat, e: nat ensures (s, e) in pads <==> PadRun(words, s, e) {
      PadsAre(words, pads, s, e);
    }
    forall r | r in pads && (t == r.0 || t == r.1 + 1) ensures PadRun(words, r.0, r.1) {
      assert r == (r.0, r.1);
    }
  }

  lemma InfoStarts(words: seq<u32>, info: map<nat, Branch>, t: nat)
    requires Info(words, |words|, info)
    ensures (exists i :: i in info && info[i].target == Some(t)) <==> exists i: nat :: BranchesTo(words, i, t)
    ensures t > 0 && t - 1 < |words| ==> (t - 1 in info <==> BranchAt(words, t - 1).Some?)
  {
    hide BranchAt;
    if exists i :: i in info && info[i].target == Some(t) {
      var i :| i in info && info[i].target == Some(t);
      assert BranchesTo(words, i, t);
    }
    if i: nat :| BranchesTo(words, i, t) {
      assert i in info;
    }
  }

  lemma BlocksBegin(starts: seq<nat>, blocks: seq<Block>, size: nat, t: nat)
    requires Tiles(blocks, starts, size)
    ensures t in starts <==> exists k :: 0 <= k < |blocks| && blocks[k].first == t
  {
    if t in starts {
      FirstOf(starts, blocks, size, t);
    }
    if k :| 0 <= k < |blocks| && blocks[k].first == t {
      assert starts[k] == t;
    }
  }

  lemma FirstOf(starts: seq<nat>, blocks: seq<Block>, size: nat, t: nat)
    requires Tiles(blocks, starts, size) && t in starts
    ensures exists k :: 0 <= k < |blocks| && blocks[k].first == t
  {
    var k :| 0 <= k < |starts| && starts[k] == t;
    assert blocks[k].first == t;
  }

  /** Every word from the first start on lies in exactly one block. */
  lemma {:induction false} EveryWordHasOneBlock(starts: seq<nat>, blocks: seq<Block>, size: nat, i: nat)
    requires Tiles(blocks, starts, size) && Ascending(starts) && blocks != [] && starts[0] <= i < size
    ensures exists k :: 0 <= k < |blocks| && blocks[k].first <= i <= blocks[k].last
    ensures forall j, k :: 0 <= j < k < |blocks| ==> !(blocks[j].first <= i <= blocks[j].last && blocks[k].first <= i <= blocks[k].last)
  {
    HasBlock(starts, blocks, size, i, |blocks| - 1);
    forall j, k | 0 <= j < k < |blocks| ensures blocks[j].last < blocks[k].first {
      assert blocks[j].last + 1 == blocks[j + 1].first == starts[j + 1] <= starts[k];
    }
  }

  lemma {:induction false} HasBlock(starts: seq<nat>, blocks: seq<Block>, size: nat, i: nat, n: nat)
    requires Tiles(blocks, starts, size) && n < |blocks| && starts[0] <= i <= blocks[n].last
    ensures exists k :: 0 <= k <= n && blocks[k].first <= i <= blocks[k].last
  {
    if i < blocks[n].first {
      assert n > 0;
      assert blocks[n - 1].last + 1 == blocks[n].first;
      HasBlock(starts, blocks, size, i, n - 1);
    }
  }

  /** Words before the first start belong to no block; only the last of them can be a branch. */
  lemma UncoveredPrefixHasNoBranch(words: seq<u32>, info: map<nat, Branch>, pads: seq<Run>, starts: seq<nat>,
                                   blocks: seq<Block>, i: nat)
    requires IsMap(words, info, pads, starts, blocks) && i < |words|
    requires starts == [] || i < starts[0]
    ensures i in info ==> if starts == [] then i + 1 == |words| else i + 1 == starts[0]
  {
    if i in info && i + 1 < |words| {
      assert IsStart(words, info, pads, i + 1);
      var j :| 0 <= j < |starts| && starts[j] == i + 1;
      assert starts[0] <= starts[j];
    }
  }
}
