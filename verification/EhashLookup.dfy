/** What hardware and software lookups see before and after inserts and deletes. */
module EhashLookup {
  import opened Bytes
  import opened Layout
  import opened Bucket
  import opened Epoch
  import opened Options
  import opened EhashView
  import opened EhashAdd
  import opened EhashDel

  /** No two flows of one bucket carry the same key. */
  ghost predicate UniqueKeys(v: View) {
    forall b :: 0 <= b < |v.bidx| ==> NoDup(KeysOf(v.w.mem, v.w.keySize, v.bidx[b]))
  }

  lemma KeysUntouched(v: View, v': View, crc: seq<byte> -> nat, b: nat, fs: seq<Flow>, gone: set<Addr>)
    requires Coherent(v, crc) && b < |v.bidx| && (forall f :: f in fs ==> f in v.bidx[b] && f.rec !in gone)
    requires Untouched(v.w.mem, v'.w.mem, gone) && v'.w.keySize == v.w.keySize
    ensures KeysOf(v'.w.mem, v.w.keySize, fs) == KeysOf(v.w.mem, v.w.keySize, fs)
  {
    hide WorldOk, HeadsOk, ListsOk, OwnersOk;
    forall i | 0 <= i < |fs| ensures KeyOf(v'.w.mem, v.w.keySize, fs[i].rec) == KeyOf(v.w.mem, v.w.keySize, fs[i].rec) {
      assert fs[i] in fs && FlowOk(v.w, crc, |v.bidx|, b, fs[i]);
    }
  }

  /** A bucket's records are none of another bucket's blocks. */
  lemma RecordsApart(v: View, crc: seq<byte> -> nat, b: nat, c: nat, f: Flow)
    requires Coherent(v, crc) && b < |v.bidx| == |v.cu| && c < |v.bidx| && f in v.bidx[b]
    ensures f.rec !in v.cu[c]
    ensures b != c ==> forall g :: g in v.bidx[c] ==> g.rec != f.rec
  {
    hide WorldOk, HeadsOk, ListsOk, FlowsOk, AllOwned;
  }

  lemma FirstMatchCons(a: Addr, k: seq<byte>, recs: seq<Addr>, keys: seq<seq<byte>>, key: seq<byte>)
    requires |recs| == |keys|
    ensures FirstMatch([a] + recs, [k] + keys, key) == if k == key then a else FirstMatch(recs, keys, key)
  {
    assert ([a] + recs)[1..] == recs && ([k] + keys)[1..] == keys;
  }

  /** An insert changes the answer for its own key, in its own bucket, and no other answer. */
  lemma AddedSeen(v: View, v': View, crc: seq<byte> -> nat, f: Flow, rec: seq<byte>, freed: bool)
    requires ViewOk(v, crc) && ViewOk(v', crc) && v'.w.keySize == v.w.keySize == f.keySize
    requires f.index < |v.bidx| && RecordBytesOk(rec) && Added(v, v', f, rec, freed)
    ensures |v'.bidx| == |v.bidx| && f.index !in v'.dark
    ensures Indexed(v', f.index, KeyIn(rec, f.keySize)) == f.rec
    ensures forall key :: key != KeyIn(rec, f.keySize) ==> Indexed(v', f.index, key) == Indexed(v, f.index, key)
    ensures forall c, key :: 0 <= c < |v.bidx| && c != f.index ==> Indexed(v', c, key) == Indexed(v, c, key)
    ensures forall c :: 0 <= c < |v.bidx| && c != f.index ==> v'.w.pubs[c] == v.w.pubs[c]
    ensures UniqueKeys(v) && Indexed(v, f.index, KeyIn(rec, f.keySize)) == 0 ==> UniqueKeys(v')
  {
    hide WorldOk, HeadsOk, ListsOk, FlowsOk, OwnersOk, KeyOf, FirstMatch, KeptRecords, KeptNodes;
    Sizes(v, crc);
    var b, k := f.index, KeyIn(rec, f.keySize);
    var s := if freed then Elems(v.cu[b]) else {};
    forall c | 0 <= c < |v.bidx| ensures KeysOf(v'.w.mem, v.w.keySize, v.bidx[c]) == KeysOf(v.w.mem, v.w.keySize, v.bidx[c]) {
      forall g | g in v.bidx[c] ensures g.rec !in s {
        RecordsApart(v, crc, c, b, g);
      }
      KeysUntouched(v, v', crc, c, v.bidx[c], s);
    }
    KeyWritten(v'.w.mem, f, rec);
    assert RecsOf([f] + v.bidx[b]) == [f.rec] + RecsOf(v.bidx[b]);
    assert KeysOf(v'.w.mem, v.w.keySize, [f] + v.bidx[b]) == [k] + KeysOf(v.w.mem, v.w.keySize, v.bidx[b]);
    forall key ensures Indexed(v', b, key) == if k == key then f.rec else Indexed(v, b, key) {
      FirstMatchCons(f.rec, k, RecsOf(v.bidx[b]), KeysOf(v.w.mem, v.w.keySize, v.bidx[b]), key);
    }
    if UniqueKeys(v) && Indexed(v, b, k) == 0 {
      MissMeansAbsent(v, crc, b, k);
      assert NoDup([k] + KeysOf(v.w.mem, v.w.keySize, v.bidx[b]));
    }
  }

  lemma KeyWritten(mem: Memory, f: Flow, rec: seq<byte>)
    requires RecordBytesOk(rec) && KeySizeOk(f.keySize) && f.rec in mem && mem[f.rec] == rec
    ensures KeyOf(mem, f.keySize, f.rec) == KeyIn(rec, f.keySize)
  {
  }

  lemma MissMeansAbsent(v: View, crc: seq<byte> -> nat, b: nat, key: seq<byte>)
    requires Coherent(v, crc) && b < |v.bidx| && Indexed(v, b, key) == 0
    ensures key !in KeysOf(v.w.mem, v.w.keySize, v.bidx[b])
  {
    hide WorldOk, HeadsOk, ListsOk, OwnersOk;
    forall i | 0 <= i < |v.bidx[b]| ensures v.bidx[b][i].rec != 0 {
      assert FlowOk(v.w, crc, |v.bidx|, b, v.bidx[b][i]);
    }
    ZeroMeansAbsent(RecsOf(v.bidx[b]), KeysOf(v.w.mem, v.w.keySize, v.bidx[b]), key);
  }

  lemma {:induction false} ZeroMeansAbsent(recs: seq<Addr>, keys: seq<seq<byte>>, key: seq<byte>)
    requires |recs| == |keys| && FirstMatch(recs, keys, key) == 0
    requires forall i :: 0 <= i < |recs| ==> recs[i] != 0
    ensures key !in keys
  {
    if recs != [] {
      ZeroMeansAbsent(recs[1..], keys[1..], key);
    }
  }

  /** Leaving out a flow changes first matches only for its own key. */
  lemma {:induction false} KeepMatches(mem: Memory, keySize: nat, fs: seq<Flow>, x: Flow, j: nat, key: seq<byte>)
    requires j <= |fs| && forall f :: f in fs ==> f.rec != 0
    ensures var rest := KeepTo(fs, Some(x), j);
            && (key != KeyOf(mem, keySize, x.rec) ==>
                  FirstMatch(RecsOf(rest), KeysOf(mem, keySize, rest), key)
                  == FirstMatch(RecsOf(fs[..j]), KeysOf(mem, keySize, fs[..j]), key))
  {
    if j > 0 {
      KeepMatches(mem, keySize, fs, x, j - 1, key);
      assert fs[..j] == fs[..j - 1] + [fs[j - 1]];
      MatchSnoc(mem, keySize, fs[..j - 1], fs[j - 1], key);
      MatchSnoc(mem, keySize, KeepTo(fs, Some(x), j - 1), fs[j - 1], key);
    }
  }

  lemma MatchSnoc(mem: Memory, keySize: nat, fs: seq<Flow>, f: Flow, key: seq<byte>)
    requires f.rec != 0 && forall g :: g in fs ==> g.rec != 0
    ensures FirstMatch(RecsOf(fs + [f]), KeysOf(mem, keySize, fs + [f]), key) ==
            var h := FirstMatch(RecsOf(fs), KeysOf(mem, keySize, fs), key);
            if h != 0 then h else if KeyOf(mem, keySize, f.rec) == key then f.rec else 0
  {
    var recs, keys := RecsOf(fs + [f]), KeysOf(mem, keySize, fs + [f]);
    forall i | 0 <= i < |recs| ensures recs[i] != 0 {
      if i < |fs| { assert fs[i] in fs; }
    }
    FirstMatchSplit(recs, keys, key, |fs|);
    assert recs[..|fs|] == RecsOf(fs) && keys[..|fs|] == KeysOf(mem, keySize, fs);
    assert recs[|fs|..] == [f.rec] && keys[|fs|..] == [KeyOf(mem, keySize, f.rec)];
  }

  lemma {:induction false} KeepKeysNoDup(mem: Memory, keySize: nat, fs: seq<Flow>, x: Flow, j: nat)
    requires NoDup(KeysOf(mem, keySize, fs)) && j <= |fs|
    ensures var rest := KeepTo(fs, Some(x), j);
            NoDup(KeysOf(mem, keySize, rest)) && forall k :: k in KeysOf(mem, keySize, rest) ==> k in KeysOf(mem, keySize, fs)[..j]
  {
    hide KeyOf, KeysOf, NoDup;
    if j == 0 {
      NothingRepeats(KeysOf(mem, keySize, []));
    } else {
      KeepKeysNoDup(mem, keySize, fs, x, j - 1);
      var ks, rest := KeysOf(mem, keySize, fs), KeepTo(fs, Some(x), j - 1);
      MoreNoDup(KeysOf(mem, keySize, rest), ks, j - 1);
      KeysSnoc(mem, keySize, rest, fs[j - 1]);
    }
  }

  lemma NothingRepeats<T>(s: seq<T>)
    requires |s| == 0
    ensures NoDup(s)
  {
  }

  lemma KeysSnoc(mem: Memory, keySize: nat, fs: seq<Flow>, f: Flow)
    ensures KeysOf(mem, keySize, fs + [f]) == KeysOf(mem, keySize, fs) + [KeyOf(mem, keySize, f.rec)]
  {
  }

  lemma MoreNoDup<T>(s: seq<T>, all: seq<T>, n: nat)
    requires NoDup(s) && NoDup(all) && n < |all| && forall x :: x in s ==> x in all[..n]
    ensures NoDup(s + [all[n]]) && forall x :: x in s + [all[n]] ==> x in all[..n + 1]
    ensures forall x :: x in s ==> x in all[..n + 1]
  {
    assert all[..n + 1] == all[..n] + [all[n]];
    assert all[n] !in all[..n];
  }

  /** With unique keys, no flow but x carries x's key. */
  lemma KeyLeavesToo(mem: Memory, keySize: nat, fs: seq<Flow>, x: Flow)
    requires NoDup(KeysOf(mem, keySize, fs)) && x in fs
    ensures NoDup(KeysOf(mem, keySize, Keep(fs, Some(x))))
    ensures KeyOf(mem, keySize, x.rec) !in KeysOf(mem, keySize, Keep(fs, Some(x)))
  {
    hide KeyOf;
    KeepKeysNoDup(mem, keySize, fs, x, |fs|);
    hide NoDup;
    var rest := Keep(fs, Some(x));
    var i :| 0 <= i < |fs| && fs[i] == x;
    forall k | 0 <= k < |rest| ensures KeyOf(mem, keySize, rest[k].rec) != KeyOf(mem, keySize, x.rec) {
      assert rest[k] in rest;
      var n :| 0 <= n < |fs| && fs[n] == rest[k];
      Differ(KeysOf(mem, keySize, fs), n, i);
    }
  }

  lemma Differ<T>(s: seq<T>, i: nat, j: nat)
    requires NoDup(s) && i < |s| && j < |s| && i != j
    ensures s[i] != s[j]
  {
  }

  /** The kept flows of bucket b still carry their keys. */
  lemma RestUntouched(v: View, v': View, crc: seq<byte> -> nat, x: Flow, freed: bool)
    requires Coherent(v, crc) && x.index < |v.bidx| == |v.cu| && x in v.bidx[x.index]
    requires Deleted(v, v', x, x.index in v'.dark, freed) && v'.w.keySize == v.w.keySize
    ensures var rest := Keep(v.bidx[x.index], Some(x)); KeysOf(v'.w.mem, v.w.keySize, rest) == KeysOf(v.w.mem, v.w.keySize, rest)
    ensures forall c :: 0 <= c < |v.bidx| && c != x.index ==>
              KeysOf(v'.w.mem, v.w.keySize, v.bidx[c]) == KeysOf(v.w.mem, v.w.keySize, v.bidx[c])
  {
    hide WorldOk, HeadsOk, ListsOk, FlowsOk, OwnersOk, KeptRecords, KeptNodes, KeyOf, RecsOf, KeysOf;
    var b := x.index;
    var rest := Keep(v.bidx[b], Some(x));
    forall f | f in rest ensures f.rec !in Retired(v, x) {
      RecordsApart(v, crc, b, b, f);
      RestApart(v, crc, x, f);
    }
    KeysUntouched(v, v', crc, b, rest, Retired(v, x));
    forall c | 0 <= c < |v.bidx| && c != b ensures KeysOf(v'.w.mem, v.w.keySize, v.bidx[c]) == KeysOf(v.w.mem, v.w.keySize, v.bidx[c]) {
      forall g | g in v.bidx[c] ensures g.rec !in Retired(v, x) {
        RecordsApart(v, crc, c, b, g);
      }
      KeysUntouched(v, v', crc, c, v.bidx[c], Retired(v, x));
    }
  }

  lemma RestApart(v: View, crc: seq<byte> -> nat, x: Flow, f: Flow)
    requires Coherent(v, crc) && x.index < |v.bidx| && x in v.bidx[x.index] && f in v.bidx[x.index] && f != x
    ensures f.rec != x.rec
  {
    hide WorldOk, HeadsOk, OwnersOk, FlowsOk;
    var fs := v.bidx[x.index];
    var i :| 0 <= i < |fs| && fs[i] == x;
    var j :| 0 <= j < |fs| && fs[j] == f;
    assert NoDup(RecsOf(fs)) && RecsOf(fs)[i] == x.rec && RecsOf(fs)[j] == f.rec;
  }

  /**
   * A delete changes the index's answer for its own key and no other; the deleted record is never
   * found again, and with unique keys its key is a miss.
   */
  lemma DeletedSeen(v: View, v': View, crc: seq<byte> -> nat, x: Flow, freed: bool)
    requires ViewOk(v, crc) && ViewOk(v', crc) && v'.w.keySize == v.w.keySize
    requires x.index < |v.bidx| && x in v.bidx[x.index]
    requires Deleted(v, v', x, x.index in v'.dark, freed)
    ensures |v'.bidx| == |v.bidx|
    ensures forall key :: key != KeyOf(v.w.mem, v.w.keySize, x.rec) ==> Indexed(v', x.index, key) == Indexed(v, x.index, key)
    ensures forall key :: Indexed(v', x.index, key) != x.rec
    ensures forall c, key :: 0 <= c < |v.bidx| && c != x.index ==> Indexed(v', c, key) == Indexed(v, c, key)
    ensures forall c :: 0 <= c < |v.bidx| && c != x.index ==> v'.w.pubs[c] == v.w.pubs[c]
    ensures UniqueKeys(v) ==> UniqueKeys(v') && Indexed(v', x.index, KeyOf(v.w.mem, v.w.keySize, x.rec)) == 0
  {
    hide WorldOk, HeadsOk, ListsOk, FlowsOk, OwnersOk, KeyOf, KeptRecords, KeptNodes, RecsOf, Keep, NoDup, Untouched;
    Sizes(v, crc);
    var b, fs := x.index, v.bidx[x.index];
    var rest := Keep(fs, Some(x));
    RestUntouched(v, v', crc, x, freed);
    BucketRecsNotNull(v, crc, b);
    forall key ensures Indexed(v', b, key) != x.rec
               ensures key != KeyOf(v.w.mem, v.w.keySize, x.rec) ==> Indexed(v', b, key) == Indexed(v, b, key) {
      KeepIsKeepTo(v.w.mem, v.w.keySize, fs, x, key);
      NotFoundAgain(v, crc, x, key);
    }
    if UniqueKeys(v) {
      KeyLeavesToo(v.w.mem, v.w.keySize, fs, x);
    }
  }

  lemma BucketRecsNotNull(v: View, crc: seq<byte> -> nat, b: nat)
    requires Coherent(v, crc) && b < |v.bidx|
    ensures forall f :: f in v.bidx[b] ==> f.rec != 0
  {
    hide WorldOk, HeadsOk, ListsOk, OwnersOk;
    forall f | f in v.bidx[b] ensures f.rec != 0 {
      assert FlowOk(v.w, crc, |v.bidx|, b, f);
    }
  }

  lemma KeepIsKeepTo(mem: Memory, keySize: nat, fs: seq<Flow>, x: Flow, key: seq<byte>)
    requires forall f :: f in fs ==> f.rec != 0
    ensures var rest := Keep(fs, Some(x));
            key != KeyOf(mem, keySize, x.rec) ==>
            FirstMatch(RecsOf(rest), KeysOf(mem, keySize, rest), key) == FirstMatch(RecsOf(fs), KeysOf(mem, keySize, fs), key)
  {
    KeepMatches(mem, keySize, fs, x, |fs|, key);
    assert fs[..|fs|] == fs;
  }

  lemma NotFoundAgain(v: View, crc: seq<byte> -> nat, x: Flow, key: seq<byte>)
    requires Coherent(v, crc) && x.index < |v.bidx| && x in v.bidx[x.index]
    ensures var rest := Keep(v.bidx[x.index], Some(x));
            FirstMatch(RecsOf(rest), KeysOf(v.w.mem, v.w.keySize, rest), key) != x.rec
  {
    hide WorldOk, HeadsOk, OwnersOk, FlowsOk, RecsOf;
    var rest := Keep(v.bidx[x.index], Some(x));
    KeepRecs(v.bidx[x.index], x);
    BucketRecsNotNull(v, crc, x.index);
    assert x.rec !in Elems(RecsOf(rest));
  }

  lemma AttachKeeps(v: View, crc: seq<byte> -> nat, on: bool)
    requires ViewOk(v, crc)
    ensures ViewOk(v.(w := v.w.(attached := on)), crc)
  {
    var v' := v.(w := v.w.(attached := on));
    assert Reach(v'.w) == Reach(v.w);
    forall b, f | 0 <= b < |v.bidx| && f in v.bidx[b] ensures FlowOk(v'.w, crc, |v.bidx|, b, f) {
      assert FlowOk(v.w, crc, |v.bidx|, b, f);
    }
    forall a | a in v'.owner ensures OwnedAs(v', a, v'.owner[a]) {
      assert OwnedAs(v, a, v.owner[a]);
    }
  }

  lemma IsAttach(w: World, on: bool, quiet: bool)
    ensures var e := if on then Attach else Detach; Legal(w, e, quiet) && Apply(w, e) == w.(attached := on)
  {
  }

  lemma HeadIsPublished(w: World, b: nat)
    requires WorldOk(w) && b < |w.heads|
    ensures b < |w.pubs| && Published(w.mem, w.keySize, w.heads[b], w.pubs[b])
  {
  }

  /** How many flows a head exposes. */
  lemma ImageSize(v: View, crc: seq<byte> -> nat, b: nat)
    requires Coherent(v, crc) && b < |v.bidx|
    ensures |v.w.pubs[b].recs| == if b in v.dark then 0 else |v.bidx[b]|
    ensures Per1(v.w.keySize) == Per(v.w.keySize)
  {
  }

  lemma KeyHasSize(rec: seq<byte>, keySize: nat)
    requires |rec| == FLOW_BLK_SIZE && KeySizeOk(keySize)
    ensures |KeyIn(rec, keySize)| == keySize && |rec| == 512 && KeyIn(rec, keySize) == rec[8..8 + keySize]
  {
  }

  /** The bucket of a record. */
  lemma RecordIndex(rec: seq<byte>, keySize: nat, crc: seq<byte> -> nat, buckets: nat)
    requires RecordBytesOk(rec) && KeySizeOk(keySize) && buckets > 0
    ensures |rec| == 512 && 0 <= BucketIndex(crc, KeyIn(rec, keySize), buckets) < buckets && 8 + keySize <= 512
    ensures BucketIndex(crc, KeyIn(rec, keySize), buckets) == crc(rec[8..8 + keySize]) % buckets
  {
  }

  lemma DarkenedIs(v: View, v': View, x: Flow, darkened: bool, freed: bool)
    requires x.index < |v.bidx| == |v.cu| && Deleted(v, v', x, darkened, freed)
    ensures (x.index in v'.dark) == darkened
  {
  }

  /** The eviction before an insert of key k: the first flow that carries it leaves, if there is one. */
  ghost predicate Evicted(v: View, mid: View, b: nat, k: seq<byte>, x: Option<Flow>, darkened: bool, freed: bool)
    requires b < |v.bidx| == |v.cu|
  {
    match x
    case None => Indexed(v, b, k) == 0 && mid == v
    case Some(y) => y.index == b && y.rec == Indexed(v, b, k) != 0 && y in v.bidx[b] && Deleted(v, mid, y, darkened, freed)
  }

  /** What an eviction does to lookups; it changes the table if and only if the key was indexed. */
  lemma EvictedIs(v: View, mid: View, crc: seq<byte> -> nat, b: nat, k: seq<byte>, x: Option<Flow>, darkened: bool,
                  freed: bool)
    requires ViewOk(v, crc) && ViewOk(mid, crc) && mid.w.keySize == v.w.keySize && b < |v.bidx|
    requires x.None? ==> Indexed(v, b, k) == 0 && mid == v
    requires x.Some? ==> x.value.index == b && x.value in v.bidx[b] && x.value.rec == Indexed(v, b, k)
                         && KeyOf(v.w.mem, v.w.keySize, x.value.rec) == k && Deleted(v, mid, x.value, darkened, freed)
    ensures Evicted(v, mid, b, k, x, darkened, freed)
    ensures mid == v <==> Indexed(v, b, k) == 0
    ensures |mid.bidx| == |v.bidx|
    ensures forall c, key :: 0 <= c < |v.bidx| && (c != b || key != k) ==> Indexed(mid, c, key) == Indexed(v, c, key)
    ensures UniqueKeys(v) ==> UniqueKeys(mid) && Indexed(mid, b, k) == 0
    ensures |mid.w.pubs| == |mid.bidx| && |mid.w.pubs[b].recs| == |mid.w.pubs[b].keys|
    ensures x.Some? ==> forall key :: Answer(mid.w.pubs[b], key) == if darkened then 0 else Indexed(mid, b, key)
  {
    hide Coherent, DarkOk, Indexed, Deleted, UniqueKeys, KeyOf, Keep;
    Sizes(v, crc);
    Sizes(mid, crc);
    if x.Some? {
      DarkenedIs(v, mid, x.value, darkened, freed);
      assert (b in mid.dark) == darkened;
      DeletedSeen(v, mid, crc, x.value, freed);
      BucketRecsNotNull(v, crc, b);
      assert Indexed(mid, b, k) != x.value.rec;
    }
    HeadsAnswer(mid, crc, b, k);
    forall key ensures Answer(mid.w.pubs[b], key) == if b in mid.dark then 0 else Indexed(mid, b, key) {
      HeadsAnswer(mid, crc, b, key);
    }
  }

  lemma HeadsAnswer(v: View, crc: seq<byte> -> nat, b: nat, key: seq<byte>)
    requires ViewOk(v, crc)
    ensures b < |v.bidx| ==> b < |v.w.pubs| && |v.w.pubs[b].recs| == |v.w.pubs[b].keys|
                             && Answer(v.w.pubs[b], key) == if b in v.dark then 0 else Indexed(v, b, key)
  {
    if b < |v.bidx| { HardwareSeesIndex(v, crc, b, key); }
  }

  lemma AddedRecord(v: View, v': View, f: Flow, rec: seq<byte>, freed: bool)
    requires f.index < |v.bidx| == |v.cu| && Added(v, v', f, rec, freed)
    ensures f.rec in v'.w.mem && v'.w.mem[f.rec] == rec
  {
  }
}
