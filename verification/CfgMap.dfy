/** Branch classification of microcode words and the run detectors. */
module CfgMap {
  import opened Bytes
  import opened Options

  const ABS_PREFIX := 0xb7ff
  const PARK_PREFIX := 0xb7df
  const REL_PREFIXES: set<int> := {
    0xb3ff, 0xb43f, 0xbc3f, 0xa3ff, 0xb03f, 0xb83f, 0xb41f, 0xbc1f, 0xb81f, 0xb01f, 0xb45f, 0xb17f, 0xa7ff}
  const TABLE_WORDS: nat := 48

  datatype Kind = Abs | Rel | Park

  /** A branch word: its kind and its target, if that lies in the image. */
  datatype Branch = Branch(kind: Kind, target: Option<nat>)

  function Prefix(w: u32): nat {
    w / 0x1_0000
  }

  function Low(w: u32): nat {
    w % 0x1_0000
  }

  function Sext16(v: nat): int {
    if v >= 0x8000 then v - 0x1_0000 else v
  }

  function InImage(t: int, n: nat): Option<nat> {
    if 0 <= t < n then Some(t) else None
  }

  /** The branch at word i, None for every other word. */
  function BranchAt(words: seq<u32>, i: nat): Option<Branch>
    requires i < |words|
  {
    var w := words[i];
    if Prefix(w) == ABS_PREFIX then Some(Branch(Abs, InImage(TABLE_WORDS + Low(w), |words|)))
    else if Prefix(w) in REL_PREFIXES then Some(Branch(Rel, InImage(i + Sext16(Low(w)), |words|)))
    else if Prefix(w) == PARK_PREFIX then Some(Branch(Park, None))
    else None
  }

  /** Sign extension reads 16 bits as two's complement. */
  lemma Sext16IsTwosComplement(v: nat)
    requires v < 0x1_0000
    ensures -0x8000 <= Sext16(v) < 0x8000 && Sext16(v) % 0x1_0000 == v
  {
  }

  /** The words of an image whose word i is a branch with this opcode prefix and low half. */
  predicate HasWord(words: seq<u32>, i: nat, prefix: nat, low: nat) {
    i < |words| && words[i] == prefix * 0x1_0000 + low && prefix < 0x1_0000 && low < 0x1_0000
  }

  /** The opcode prefixes of relative branches. */
  predicate Relative(prefix: nat) {
    || prefix == 0xb3ff || prefix == 0xb43f || prefix == 0xbc3f || prefix == 0xa3ff || prefix == 0xb03f || prefix == 0xb83f
    || prefix == 0xb41f || prefix == 0xbc1f || prefix == 0xb81f || prefix == 0xb01f || prefix == 0xb45f || prefix == 0xb17f
    || prefix == 0xa7ff
  }

  lemma HalvesOf(words: seq<u32>, i: nat, prefix: nat, low: nat)
    requires HasWord(words, i, prefix, low)
    ensures Prefix(words[i]) == prefix && Low(words[i]) == low
  {
  }

  lemma RelativeIs(prefix: nat)
    ensures Relative(prefix) <==> prefix in REL_PREFIXES
  {
  }

  /** Which words are branches, and of which kind: the prefix alone decides. */
  lemma KindOfPrefix(words: seq<u32>, i: nat, prefix: nat, low: nat)
    requires HasWord(words, i, prefix, low)
    ensures var b := BranchAt(words, i);
            && (b.Some? <==> prefix == 0xb7ff || prefix == 0xb7df || Relative(prefix))
            && (b.Some? && b.value.kind == Abs <==> prefix == 0xb7ff)
            && (b.Some? && b.value.kind == Rel <==> Relative(prefix))
            && (b.Some? && b.value.kind == Park <==> prefix == 0xb7df)
  {
    hide Relative, REL_PREFIXES, Prefix, Low;
    HalvesOf(words, i, prefix, low);
    RelativeIs(prefix);
    PrefixesDiffer();
  }

  lemma PrefixesDiffer()
    ensures 0xb7ff !in REL_PREFIXES && 0xb7df !in REL_PREFIXES
  {
  }

  /**
   * A relative branch reaches by its offset: with distance d encoded in its low half, for any d that
   * 16 bits can hold, the branch at word i goes to word i + d if the image has it. Distance 0 is the
   * branch itself and -1 the word before it.
   */
  lemma RelativeBranchReaches(words: seq<u32>, i: nat, prefix: nat, d: int)
    requires -0x8000 <= d < 0x8000 && Relative(prefix) && HasWord(words, i, prefix, d % 0x1_0000)
    ensures BranchAt(words, i) == Some(Branch(Rel, if 0 <= i + d < |words| then Some(i + d) else None))
  {
    hide Relative, REL_PREFIXES, Prefix, Low;
    HalvesOf(words, i, prefix, d % 0x1_0000);
    RelativeIs(prefix);
    PrefixesDiffer();
    SextOfEncoded(d);
  }

  lemma SextOfEncoded(d: int)
    requires -0x8000 <= d < 0x8000
    ensures Sext16(d % 0x1_0000) == d
  {
  }

  /** Moving a relative branch word moves its target with it. */
  lemma RelativeBranchMoves(words: seq<u32>, i: nat, words': seq<u32>, i': nat, prefix: nat, low: nat)
    requires Relative(prefix) && HasWord(words, i, prefix, low) && HasWord(words', i', prefix, low)
    requires BranchAt(words, i).Some? && BranchAt(words, i).value.target.Some?
    ensures var t := i' + (BranchAt(words, i).value.target.value - i);
            BranchAt(words', i') == Some(Branch(Rel, if 0 <= t < |words'| then Some(t) else None))
  {
    var d := if low < 0x8000 then low else low - 0x1_0000;
    assert d % 0x1_0000 == low;
    RelativeBranchReaches(words, i, prefix, d);
    RelativeBranchReaches(words', i', prefix, d);
  }

  /** An absolute branch counts from the word after the 48-word table, wherever it stands; a park word goes nowhere. */
  lemma AbsoluteBranchStays(words: seq<u32>, i: nat, low: nat)
    ensures HasWord(words, i, 0xb7ff, low) ==>
              BranchAt(words, i) == Some(Branch(Abs, if 48 + low < |words| then Some(48 + low) else None))
    ensures HasWord(words, i, 0xb7df, low) ==> BranchAt(words, i) == Some(Branch(Park, None))
  {
    hide REL_PREFIXES, Prefix, Low;
    PrefixesDiffer();
    if HasWord(words, i, 0xb7ff, low) {
      HalvesOf(words, i, 0xb7ff, low);
    }
    if HasWord(words, i, 0xb7df, low) {
      HalvesOf(words, i, 0xb7df, low);
    }
  }

  ghost predicate Info(words: seq<u32>, n: nat, info: map<nat, Branch>)
    requires n <= |words|
  {
    && (forall i :: i in info ==> i < n && BranchAt(words, i) == Some(info[i]))
    && (forall i: nat :: i < n && BranchAt(words, i).Some? ==> i in info)
  }

  /** Every branch word with its kind and resolved target, and no other word. */
  method Classify(words: seq<u32>) returns (info: map<nat, Branch>)
    ensures Info(words, |words|, info)
  {
    info := map[];
    var n := |words|;
    var i: nat := 0;
    while i < n
      invariant i <= n && Info(words, i, info)
    {
      var p, low := words[i] / 0x1_0000, words[i] % 0x1_0000;
      if p == ABS_PREFIX {
        var t := TABLE_WORDS + low;
        info := info[i := Branch(Abs, if t < n then Some(t) else None)];
      } else if p in REL_PREFIXES {
        var t := i + Sext16(low);
        info := info[i := Branch(Rel, if 0 <= t < n then Some(t) else None)];
      } else if p == PARK_PREFIX {
        info := info[i := Branch(Park, None)];
      }
      i := i + 1;
    }
  }

  // ------------------------------------------------------------------ runs

  type Run = (nat, nat)

  /** s to e is a maximal run of ok positions among lo to hi - 1. */
  ghost predicate Maximal(ok: nat -> bool, lo: nat, hi: nat, s: nat, e: nat) {
    && lo <= s <= e < hi
    && (forall j: nat :: s <= j <= e ==> ok(j))
    && (s > lo ==> !ok(s - 1))
    && (e + 1 < hi ==> !ok(e + 1))
  }

  /** runs lists, in order, exactly the maximal runs below hi of at least minLen that end before hi - 1. */
  ghost predicate Closed(ok: nat -> bool, lo: nat, hi: nat, minLen: nat, runs: seq<Run>) {
    && (forall k :: 0 <= k < |runs| ==>
          Maximal(ok, lo, hi, runs[k].0, runs[k].1) && runs[k].1 + 1 < hi && runs[k].1 - runs[k].0 + 1 >= minLen)
    && (forall k :: 0 <= k < |runs| - 1 ==> runs[k].1 < runs[k + 1].0)
    && (forall s: nat, e: nat :: Maximal(ok, lo, hi, s, e) && e + 1 < hi && e - s + 1 >= minLen ==> (s, e) in runs)
  }

  /** The run the scan is in before position i. */
  ghost predicate Open(ok: nat -> bool, lo: nat, i: nat, start: Option<nat>) {
    match start
    case None => i > lo ==> !ok(i - 1)
    case Some(s) => lo <= s < i && (forall j: nat :: s <= j < i ==> ok(j)) && (s > lo ==> !ok(s - 1))
  }

  /** A position that is not ok ends every run before it. */
  lemma MaximalAtGap(ok: nat -> bool, lo: nat, i: nat, s: nat, e: nat)
    requires !ok(i)
    ensures Maximal(ok, lo, i, s, e) <==> Maximal(ok, lo, i + 1, s, e)
  {
    assert Maximal(ok, lo, i + 1, s, e) ==> ok(e);
  }

  lemma AllRunsAreClosed(ok: nat -> bool, lo: nat, i: nat, minLen: nat, runs: seq<Run>)
    requires AllRuns(ok, lo, i, minLen, runs) && !ok(i)
    ensures Closed(ok, lo, i + 1, minLen, runs)
  {
    hide Maximal;
    forall s: nat, e: nat ensures Maximal(ok, lo, i, s, e) <==> Maximal(ok, lo, i + 1, s, e) {
      MaximalAtGap(ok, lo, i, s, e);
    }
    forall k | 0 <= k < |runs| ensures runs[k].1 < i {
      MaximalIs(ok, lo, i, runs[k].0, runs[k].1);
    }
  }

  /** Position i is not ok: the open run, if long enough, joins the list. */
  lemma CloseRun(ok: nat -> bool, lo: nat, i: nat, start: Option<nat>, minLen: nat, runs: seq<Run>)
    requires Closed(ok, lo, i, minLen, runs) && Open(ok, lo, i, start) && minLen > 0 && lo <= i && !ok(i)
    ensures start.Some? ==> start.value < i
    ensures Closed(ok, lo, i + 1, minLen, WithOpen(runs, start, i, minLen))
    ensures Open(ok, lo, i + 1, None)
  {
    hide Closed, AllRuns, Maximal;
    CloseLast(ok, lo, i, start, minLen, runs);
    AllRunsAreClosed(ok, lo, i, minLen, WithOpen(runs, start, i, minLen));
  }

  /** A stretch of ok positions has one beginning. */
  lemma SameStart(ok: nat -> bool, lo: nat, i: nat, s: nat, t: nat)
    requires lo <= s < i && lo <= t < i
    requires forall j: nat :: s <= j < i ==> ok(j)
    requires forall j: nat :: t <= j < i ==> ok(j)
    requires (s > lo ==> !ok(s - 1)) && (t > lo ==> !ok(t - 1))
    ensures s == t
  {
    assert s < t ==> !(s <= t - 1 < i);
    assert t < s ==> !(t <= s - 1 < i);
  }

  /** A run that reaches position i - 1 is the open one. */
  lemma OpenRunIs(ok: nat -> bool, lo: nat, i: nat, start: Option<nat>, s: nat)
    requires Open(ok, lo, i, start) && lo <= s < i
    requires (forall j: nat :: s <= j < i ==> ok(j)) && (s > lo ==> !ok(s - 1))
    ensures start == Some(s)
  {
    assert ok(i - 1);
    SameStart(ok, lo, i, s, start.value);
  }

  /** Position i is ok: the open run goes on or begins. */
  lemma ExtendRun(ok: nat -> bool, lo: nat, i: nat, start: Option<nat>, minLen: nat, runs: seq<Run>)
    requires Closed(ok, lo, i, minLen, runs) && Open(ok, lo, i, start) && lo <= i && ok(i)
    ensures Closed(ok, lo, i + 1, minLen, runs)
    ensures Open(ok, lo, i + 1, if start.Some? then start else Some(i))
  {
    forall s: nat, e: nat | Maximal(ok, lo, i + 1, s, e) && e + 1 < i + 1 && e - s + 1 >= minLen ensures (s, e) in runs {
      assert Maximal(ok, lo, i, s, e);
    }
  }

  /** All maximal runs of at least minLen, the last one included. */
  ghost predicate AllRuns(ok: nat -> bool, lo: nat, n: nat, minLen: nat, runs: seq<Run>) {
    && (forall k :: 0 <= k < |runs| ==> Maximal(ok, lo, n, runs[k].0, runs[k].1) && runs[k].1 - runs[k].0 + 1 >= minLen)
    && (forall k :: 0 <= k < |runs| - 1 ==> runs[k].1 < runs[k + 1].0)
    && (forall s: nat, e: nat :: Maximal(ok, lo, n, s, e) && e - s + 1 >= minLen ==> (s, e) in runs)
  }

  /** The list after the open run, if long enough, has been added to it. */
  function WithOpen(runs: seq<Run>, start: Option<nat>, i: nat, minLen: nat): seq<Run>
    requires start.Some? ==> start.value < i
  {
    if start.Some? && i - start.value >= minLen then runs + [(start.value, i - 1)] else runs
  }

  /** The end of the image closes the open run too. */
  lemma CloseLast(ok: nat -> bool, lo: nat, n: nat, start: Option<nat>, minLen: nat, runs: seq<Run>)
    requires Closed(ok, lo, n, minLen, runs) && Open(ok, lo, n, start) && minLen > 0
    ensures start.Some? ==> start.value < n
    ensures AllRuns(ok, lo, n, minLen, WithOpen(runs, start, n, minLen))
  {
    hide Maximal, Open;
    OpenIsBefore(ok, lo, n, start);
    RunsAreMaximal(ok, lo, n, start, minLen, runs);
    hide WithOpen;
    forall s: nat, e: nat | Maximal(ok, lo, n, s, e) && e - s + 1 >= minLen
      ensures (s, e) in WithOpen(runs, start, n, minLen)
    {
      RunIsListed(ok, lo, n, start, minLen, runs, s, e);
    }
  }

  lemma RunsAreMaximal(ok: nat -> bool, lo: nat, n: nat, start: Option<nat>, minLen: nat, runs: seq<Run>)
    requires Closed(ok, lo, n, minLen, runs) && Open(ok, lo, n, start) && minLen > 0 && (start.Some? ==> start.value < n)
    ensures var rs := WithOpen(runs, start, n, minLen);
            && (forall k :: 0 <= k < |rs| ==> Maximal(ok, lo, n, rs[k].0, rs[k].1) && rs[k].1 - rs[k].0 + 1 >= minLen)
            && forall k :: 0 <= k < |rs| - 1 ==> rs[k].1 < rs[k + 1].0
  {
    hide Maximal, Open;
    if start.Some? && n - start.value >= minLen {
      LastIsMaximal(ok, lo, n, start.value, minLen, runs);
    }
  }

  lemma OpenIsBefore(ok: nat -> bool, lo: nat, i: nat, start: Option<nat>)
    requires Open(ok, lo, i, start)
    ensures start.Some? ==> lo <= start.value < i
  {
  }

  /** A maximal run is already listed, or it is the open one. */
  lemma RunIsListed(ok: nat -> bool, lo: nat, n: nat, start: Option<nat>, minLen: nat, runs: seq<Run>, s: nat, e: nat)
    requires Closed(ok, lo, n, minLen, runs) && Open(ok, lo, n, start) && (start.Some? ==> start.value < n)
    requires Maximal(ok, lo, n, s, e) && e - s + 1 >= minLen
    ensures (s, e) in WithOpen(runs, start, n, minLen)
  {
    hide Open, Maximal;
    if e + 1 >= n {
      MaximalIs(ok, lo, n, s, e);
      OpenRunIs(ok, lo, n, start, s);
      assert WithOpen(runs, start, n, minLen)[|runs|] == (s, e);
    }
  }

  lemma MaximalIs(ok: nat -> bool, lo: nat, n: nat, s: nat, e: nat)
    requires Maximal(ok, lo, n, s, e)
    ensures lo <= s <= e < n && (forall j: nat :: s <= j <= e ==> ok(j)) && (s > lo ==> !ok(s - 1))
  {
  }

  lemma LastIsMaximal(ok: nat -> bool, lo: nat, n: nat, s: nat, minLen: nat, runs: seq<Run>)
    requires Open(ok, lo, n, Some(s)) && n - s >= minLen > 0 && Closed(ok, lo, n, minLen, runs)
    ensures s < n && Maximal(ok, lo, n, s, n - 1)
    ensures runs != [] ==> runs[|runs| - 1].1 < s
  {
    if runs != [] {
      var e := runs[|runs| - 1].1;
      assert Maximal(ok, lo, n, runs[|runs| - 1].0, e);
      assert !ok(e + 1);
    }
  }

  function IsPad(words: seq<u32>): nat -> bool {
    (i: nat) => i < |words| && words[i] == 0xffff_ffff
  }

  /** pad_runs: every maximal run of at least minLen all-ones words, except one that touches the end. */
  method PadRuns(words: seq<u32>, minLen: nat) returns (runs: seq<Run>)
    requires minLen > 0
    ensures Closed(IsPad(words), 0, |words|, minLen, runs)
  {
    hide Closed, Open;
    NothingYet(IsPad(words), 0, minLen);
    var start: Option<nat>;
    runs, start := [], None;
    var i: nat := 0;
    while i < |words|
      invariant i <= |words| && Closed(IsPad(words), 0, i, minLen, runs) && Open(IsPad(words), 0, i, start)
      invariant start.Some? ==> start.value < i
    {
      if words[i] == 0xffff_ffff {
        ExtendRun(IsPad(words), 0, i, start, minLen, runs);
        if start.None? {
          start := Some(i);
        }
      } else {
        CloseRun(IsPad(words), 0, i, start, minLen, runs);
        if start.Some? && i - start.value >= minLen {
          runs := runs + [(start.value, i - 1)];
        }
        start := None;
      }
      i := i + 1;
    }
  }

  lemma NothingYet(ok: nat -> bool, lo: nat, minLen: nat)
    ensures Closed(ok, lo, lo, minLen, []) && Open(ok, lo, lo, None)
  {
  }

  function IsJump(words: seq<u32>): nat -> bool {
    (i: nat) => i < |words| && Prefix(words[i]) == ABS_PREFIX
  }

  /** The targets of a stretch of absolute branches, in the image or not. */
  function Targets(ws: seq<u32>): (t: seq<nat>)
    ensures |t| == |ws| && forall j :: 0 <= j < |ws| ==> t[j] == TABLE_WORDS + Low(ws[j])
  {
    seq(|ws|, j requires 0 <= j < |ws| => TABLE_WORDS + Low(ws[j]))
  }

  /** entries[k] are the targets in run k. */
  ghost predicate JumpEntries(words: seq<u32>, runs: seq<Run>, entries: seq<seq<nat>>) {
    |entries| == |runs|
    && forall k :: 0 <= k < |runs| ==>
         runs[k].0 <= runs[k].1 < |words| && entries[k] == Targets(words[runs[k].0..runs[k].1 + 1])
  }

  /** entries[k] are the words of run k. */
  ghost predicate OffsetEntries(words: seq<u32>, runs: seq<Run>, entries: seq<seq<u32>>) {
    |entries| == |runs|
    && forall k :: 0 <= k < |runs| ==>
         runs[k].0 <= runs[k].1 < |words| && entries[k] == words[runs[k].0..runs[k].1 + 1]
  }

  /** The entries of a jump table are what its words, taken as branches, resolve to. */
  lemma EntriesAreTargets(words: seq<u32>, minLen: nat, runs: seq<Run>, entries: seq<seq<nat>>, k: nat, j: nat)
    requires JumpEntries(words, runs, entries) && k < |runs| && AllRuns(IsJump(words), 48, |words|, minLen, runs)
    requires runs[k].0 <= j <= runs[k].1
    ensures j < |words| && |entries[k]| == runs[k].1 - runs[k].0 + 1
    ensures var t := entries[k][j - runs[k].0];
            BranchAt(words, j) == Some(Branch(Abs, if t < |words| then Some(t) else None))
  {
    hide REL_PREFIXES;
    assert IsJump(words)(j);
  }

  lemma JumpMore(words: seq<u32>, runs: seq<Run>, entries: seq<seq<nat>>, s: nat, e: nat)
    requires JumpEntries(words, runs, entries) && s < e <= |words|
    ensures JumpEntries(words, runs + [(s, e - 1)], entries + [Targets(words[s..e])])
  {
    hide Targets;
  }

  lemma OffsetMore(words: seq<u32>, runs: seq<Run>, entries: seq<seq<u32>>, s: nat, e: nat)
    requires OffsetEntries(words, runs, entries) && s < e <= |words|
    ensures OffsetEntries(words, runs + [(s, e - 1)], entries + [words[s..e]])
  {
  }

  lemma NoEntries(words: seq<u32>)
    ensures JumpEntries(words, [], []) && OffsetEntries(words, [], [])
  {
  }

  /** jump_table_runs: every maximal run of absolute branches from word 48 on, and its targets. */
  method JumpTableRuns(words: seq<u32>, minLen: nat) returns (runs: seq<Run>, entries: seq<seq<nat>>)
    requires minLen > 0
    ensures |words| >= TABLE_WORDS ==> AllRuns(IsJump(words), TABLE_WORDS, |words|, minLen, runs)
    ensures |words| < TABLE_WORDS ==> runs == []
    ensures JumpEntries(words, runs, entries)
  {
    hide Closed, Open, AllRuns, Targets, JumpEntries;
    NoEntries(words);
    NothingYet(IsJump(words), TABLE_WORDS, minLen);
    var start: Option<nat>;
    runs, entries, start := [], [], None;
    var i: nat := 0;
    while i < |words|
      invariant i <= |words| && JumpEntries(words, runs, entries)
      invariant i <= TABLE_WORDS ==> runs == [] && start.None?
      invariant i >= TABLE_WORDS ==> Closed(IsJump(words), TABLE_WORDS, i, minLen, runs) && Open(IsJump(words), TABLE_WORDS, i, start)
      invariant start.Some? ==> start.value < i
    {
      if i < TABLE_WORDS {
        i := i + 1;
        continue;
      }
      if Prefix(words[i]) == ABS_PREFIX {
        ExtendRun(IsJump(words), TABLE_WORDS, i, start, minLen, runs);
        if start.None? {
          start := Some(i);
        }
      } else {
        CloseRun(IsJump(words), TABLE_WORDS, i, start, minLen, runs);
        if start.Some? && i - start.value >= minLen {
          JumpMore(words, runs, entries, start.value, i);
          runs := runs + [(start.value, i - 1)];
          entries := entries + [Targets(words[start.value..i])];
        }
        start := None;
      }
      i := i + 1;
    }
    if |words| >= TABLE_WORDS {
      CloseLast(IsJump(words), TABLE_WORDS, |words|, start, minLen, runs);
    }
    if start.Some? && |words| - start.value >= minLen {
      JumpMore(words, runs, entries, start.value, |words|);
      runs := runs + [(start.value, |words| - 1)];
      assert words[start.value..] == words[start.value..|words|];
      entries := entries + [Targets(words[start.value..])];
    }
  }

  function IsOffset(words: seq<u32>, info: map<nat, Branch>): nat -> bool {
    (i: nat) => i < |words| && i !in info && 0 < words[i] < |words|
  }

  /** offset_table_runs: every maximal run of in-range words that are not branches, and its words. */
  method OffsetTableRuns(words: seq<u32>, info: map<nat, Branch>, minLen: nat)
    returns (runs: seq<Run>, entries: seq<seq<u32>>)
    requires minLen > 0
    ensures AllRuns(IsOffset(words, info), 0, |words|, minLen, runs) && OffsetEntries(words, runs, entries)
  {
    hide Closed, Open, AllRuns, OffsetEntries;
    NoEntries(words);
    NothingYet(IsOffset(words, info), 0, minLen);
    var start: Option<nat>;
    runs, entries, start := [], [], None;
    var i: nat := 0;
    while i < |words|
      invariant i <= |words| && OffsetEntries(words, runs, entries)
      invariant Closed(IsOffset(words, info), 0, i, minLen, runs) && Open(IsOffset(words, info), 0, i, start)
      invariant start.Some? ==> start.value < i
    {
      var ok := i !in info && 0 < words[i] < |words|;
      if ok {
        ExtendRun(IsOffset(words, info), 0, i, start, minLen, runs);
      } else {
        CloseRun(IsOffset(words, info), 0, i, start, minLen, runs);
      }
      if ok && start.None? {
        start := Some(i);
      } else if !ok && start.Some? {
        if i - start.value >= minLen {
          OffsetMore(words, runs, entries, start.value, i);
          runs := runs + [(start.value, i - 1)];
          entries := entries + [words[start.value..i]];
        }
        start := None;
      }
      i := i + 1;
    }
    CloseLast(IsOffset(words, info), 0, |words|, start, minLen, runs);
    if start.Some? && |words| - start.value >= minLen {
      OffsetMore(words, runs, entries, start.value, |words|);
      runs := runs + [(start.value, |words| - 1)];
      assert words[start.value..] == words[start.value..|words|];
      entries := entries + [words[start.value..]];
    }
  }

  // ------------------------------------------------------------------ the runs, from the words alone

  /** The words of these kinds: padding, absolute branches, and offsets, which are plain words in 1 to |words| - 1. */
  predicate PadWord(words: seq<u32>, i: nat) {
    i < |words| && words[i] == 0xffff_ffff
  }

  predicate JumpWord(words: seq<u32>, i: nat) {
    i < |words| && 0xb7ff_0000 <= words[i] <= 0xb7ff_ffff
  }

  predicate OffsetWord(words: seq<u32>, i: nat) {
    i < |words| && BranchAt(words, i).None? && 1 <= words[i] <= |words| - 1
  }

  /** PadRuns lists exactly the longest stretches of padding that a word follows. */
  lemma PadRunsAre(words: seq<u32>, minLen: nat, runs: seq<Run>, s: nat, e: nat)
    requires Closed(IsPad(words), 0, |words|, minLen, runs)
    ensures (s, e) in runs <==>
              && s <= e && e + 1 < |words| && e - s + 1 >= minLen && (forall j: nat :: s <= j <= e ==> PadWord(words, j))
              && (s > 0 ==> !PadWord(words, s - 1)) && !PadWord(words, e + 1)
  {
    var ok := IsPad(words);
    forall j: nat ensures ok(j) <==> PadWord(words, j) {
    }
    hide IsPad, PadWord;
    if (s, e) in runs {
      var k :| 0 <= k < |runs| && runs[k] == (s, e);
      assert Maximal(ok, 0, |words|, runs[k].0, runs[k].1);
    }
    assert s <= e && e + 1 < |words| ==> (Maximal(ok, 0, |words|, s, e) <==>
      (forall j: nat :: s <= j <= e ==> ok(j)) && (s > 0 ==> !ok(s - 1)) && !ok(e + 1));
  }

  /** Listed in AllRuns exactly if maximal. */
  lemma AllRunsAre(ok: nat -> bool, lo: nat, n: nat, minLen: nat, runs: seq<Run>, s: nat, e: nat)
    requires AllRuns(ok, lo, n, minLen, runs)
    ensures (s, e) in runs <==>
              && lo <= s <= e < n && e - s + 1 >= minLen && (forall j: nat :: s <= j <= e ==> ok(j))
              && (s > lo ==> !ok(s - 1)) && (e + 1 < n ==> !ok(e + 1))
  {
    if (s, e) in runs {
      var k :| 0 <= k < |runs| && runs[k] == (s, e);
      assert Maximal(ok, lo, n, runs[k].0, runs[k].1);
    }
    if lo <= s <= e < n && e - s + 1 >= minLen && (forall j: nat :: s <= j <= e ==> ok(j))
       && (s > lo ==> !ok(s - 1)) && (e + 1 < n ==> !ok(e + 1)) {
      assert Maximal(ok, lo, n, s, e);
    }
  }

  /** JumpTableRuns lists exactly the longest stretches of absolute branches from word 48 on. */
  lemma JumpRunsAre(words: seq<u32>, minLen: nat, runs: seq<Run>, s: nat, e: nat)
    requires AllRuns(IsJump(words), 48, |words|, minLen, runs)
    ensures (s, e) in runs <==>
              && 48 <= s <= e < |words| && e - s + 1 >= minLen && (forall j: nat :: s <= j <= e ==> JumpWord(words, j))
              && (s > 48 ==> !JumpWord(words, s - 1)) && (e + 1 < |words| ==> !JumpWord(words, e + 1))
  {
    var ok := IsJump(words);
    forall j: nat ensures ok(j) <==> JumpWord(words, j) {
    }
    hide IsJump, JumpWord, AllRuns;
    AllRunsAre(ok, 48, |words|, minLen, runs, s, e);
  }

  /** OffsetTableRuns lists exactly the longest stretches of offsets. */
  lemma OffsetRunsAre(words: seq<u32>, info: map<nat, Branch>, minLen: nat, runs: seq<Run>, s: nat, e: nat)
    requires Info(words, |words|, info) && AllRuns(IsOffset(words, info), 0, |words|, minLen, runs)
    ensures (s, e) in runs <==>
              && s <= e < |words| && e - s + 1 >= minLen && (forall j: nat :: s <= j <= e ==> OffsetWord(words, j))
              && (s > 0 ==> !OffsetWord(words, s - 1)) && (e + 1 < |words| ==> !OffsetWord(words, e + 1))
  {
    hide BranchAt;
    var ok := IsOffset(words, info);
    forall j: nat ensures ok(j) <==> OffsetWord(words, j) {
    }
    hide IsOffset, OffsetWord, AllRuns, Info;
    AllRunsAre(ok, 0, |words|, minLen, runs, s, e);
  }
}
