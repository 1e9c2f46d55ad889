/**
 * Scans over the block headers of a .blend file: the block stream is a
 * sequence of headers, read in file order, which the scans stop reading at
 * the first ENDB block. Linked lists built by prepending become sequences
 * in reverse file order.
 */
module BlendHeaders {
  import opened Wrappers

  type Byte = b: int | 0 <= b < 256

  /** An ID name: two characters of ID code, then the name proper. */
  type IdName = s: string | |s| >= 2 witness "  "

  /** MAKE_ID on a little-endian machine: the first character is the low byte. */
  function MakeId(a: char, b: char, c: char, d: char): int
  {
    (d as int) * 0x100_0000 + (c as int) * 0x1_0000 + (b as int) * 0x100 + a as int
  }

  /** MAKE_ID2 on a little-endian machine. */
  function MakeId2(c: char, d: char): int
  {
    (d as int) * 0x100 + c as int
  }

  const ENDB: int := MakeId('E', 'N', 'D', 'B')
  const DATA: int := MakeId('D', 'A', 'T', 'A')

  /** NUM_ICON_SIZES: the icon and the preview size. */
  const NumIconSizes: nat := 2

  /** The struct a DATA block holds, as far as these scans read it: a
      PreviewImage with, per icon size, whether a rect is stored and its
      width and height; or anything else. */
  datatype Payload =
    | PreviewPayload(hasRect: seq<bool>, w: seq<int>, h: seq<int>)
    | OtherPayload

  /** BHead together with what the reader functions return for it: the ID
      name, the asset data and the struct that BLO_library_read_struct
      reads (None when it reads nothing). */
  datatype BHead = BHead(code: int, sdnaNr: int, nr: int, len: int, idName: IdName,
                         asset: Option<nat>, payload: Option<Payload>)

  /** GS: the ID code stored in the first two characters of an ID name. */
  function IdCodeOf(name: IdName): int
  {
    (name[1] as int) * 0x100 + name[0] as int
  }

  /** The name without its ID code. */
  function NameOf(b: BHead): string
  {
    b.idName[2..]
  }

  // ---------------------------------------------------------------------
  // Where a scan stops

  /** The index of the first ENDB block, or the length when there is none. */
  function EndIndex(blocks: seq<BHead>): (r: nat)
    ensures r <= |blocks|
    ensures forall j :: 0 <= j < r ==> blocks[j].code != ENDB
    ensures r < |blocks| ==> blocks[r].code == ENDB
  {
    if blocks == [] then 0
    else if blocks[0].code == ENDB then 0
    else 1 + EndIndex(blocks[1..])
  }

  /** The first ENDB block of a prefix free of ENDB blocks is where the scan ends. */
  lemma EndIndexAt(blocks: seq<BHead>, i: nat)
    requires i <= |blocks|
    requires forall j :: 0 <= j < i ==> blocks[j].code != ENDB
    requires i == |blocks| || blocks[i].code == ENDB
    ensures EndIndex(blocks) == i
  {
  }

  /** A scan before the first ENDB that reads a block other than ENDB is
      still before it. */
  lemma BeforeEnd(blocks: seq<BHead>, i: nat)
    requires i < |blocks| && i <= EndIndex(blocks) && blocks[i].code != ENDB
    ensures i + 1 <= EndIndex(blocks)
  {
  }

  /** The blocks a scan reads: those before the first ENDB, or every block
      when the scan does not stop at ENDB. */
  function Scanned(blocks: seq<BHead>, pastEnd: bool): seq<BHead>
  {
    if pastEnd then blocks else blocks[..EndIndex(blocks)]
  }

  /** A scan that stopped at the first ENDB, or ran to the end, read the
      blocks before where it stopped. */
  lemma ScanStop(blocks: seq<BHead>, i: nat, pastEnd: bool)
    requires i <= |blocks|
    requires !pastEnd ==> i <= EndIndex(blocks) && (i == |blocks| || blocks[i].code == ENDB)
    requires pastEnd ==> i == |blocks|
    ensures Scanned(blocks, pastEnd) == blocks[..i]
  {
    if pastEnd {
      assert blocks[..i] == blocks;
    }
  }

  /** A run of DATA blocks that starts before the first ENDB ends before it. */
  lemma DataRunBeforeEnd(blocks: seq<BHead>, lo: nat, hi: nat)
    requires lo <= hi <= |blocks| && lo <= EndIndex(blocks)
    requires forall j :: lo <= j < hi ==> blocks[j].code == DATA
    ensures hi <= EndIndex(blocks)
  {
    if hi > EndIndex(blocks) {
      assert blocks[EndIndex(blocks)].code == DATA;
    }
  }

  function Reverse<T>(s: seq<T>): (r: seq<T>)
    ensures |r| == |s|
  {
    if s == [] then [] else [s[|s| - 1]] + Reverse(s[..|s| - 1])
  }

  lemma ReverseSnoc<T>(s: seq<T>, x: T)
    ensures Reverse(s + [x]) == [x] + Reverse(s)
  {
    assert (s + [x])[..|s|] == s;
  }

  // ---------------------------------------------------------------------
  // BLO_blendhandle_print_sizes

  /** The byte of a 32-bit block code at a bit shift of 24, 16, 8 or 0. */
  function CodeByte(code: int, shift: nat): Byte
    requires shift == 24 || shift == 16 || shift == 8 || shift == 0
  {
    var u := code % 0x1_0000_0000;
    if shift == 24 then (u / 0x100_0000) % 0x100
    else if shift == 16 then (u / 0x1_0000) % 0x100
    else if shift == 8 then (u / 0x100) % 0x100
    else u % 0x100
  }

  function Printable(b: Byte): Byte
  {
    if b == 0 then ' ' as int else b
  }

  /** The four-character tag of a block code, most significant byte first,
      with zero bytes shown as spaces. */
  function Tag(code: int): (r: seq<Byte>)
    ensures |r| == 4
    ensures forall k :: 0 <= k < 4 ==> r[k] != 0
    ensures forall k :: 0 <= k < 4 ==> r[k] == Printable(CodeByte(code, 24 - 8 * k))
  {
    [Printable(CodeByte(code, 24)), Printable(CodeByte(code, 16)),
     Printable(CodeByte(code, 8)), Printable(CodeByte(code, 0))]
  }

  /** A code with no zero byte is read back from its tag. */
  lemma TagRoundTrip(code: int)
    requires CodeByte(code, 24) != 0 && CodeByte(code, 16) != 0
    requires CodeByte(code, 8) != 0 && CodeByte(code, 0) != 0
    ensures var t := Tag(code);
      (t[0] as int) * 0x100_0000 + (t[1] as int) * 0x1_0000 + (t[2] as int) * 0x100 + t[3] as int
        == code % 0x1_0000_0000
  {
    var u := code % 0x1_0000_0000;
    var q1 := u / 0x100;
    var q2 := q1 / 0x100;
    var q3 := q2 / 0x100;
    assert u == q1 * 0x100 + u % 0x100;
    assert q1 == q2 * 0x100 + q1 % 0x100;
    assert q2 == q3 * 0x100 + q2 % 0x100;
    assert q3 < 0x100;
    assert u / 0x1_0000 == q2;
    assert u / 0x100_0000 == q3;
  }

  /** One printed line: tag, struct type name, item count and size with
      the header (sizeof(BHead) is 24 on a 64-bit build). */
  datatype SizeRow = SizeRow(tag: seq<Byte>, typeName: string, nr: int, size: int)

  const SizeOfBHead: int := 24

  /** BLO_blendhandle_print_sizes, with the lines returned instead of
      written; `structTypeName` stands for the file's SDNA lookup. */
  method PrintSizes(blocks: seq<BHead>, structTypeName: int -> string) returns (rows: seq<SizeRow>)
    ensures |rows| == EndIndex(blocks)
    ensures forall k :: 0 <= k < |rows| ==>
      rows[k] == SizeRow(Tag(blocks[k].code), structTypeName(blocks[k].sdnaNr), blocks[k].nr,
                         blocks[k].len + SizeOfBHead)
  {
    rows := [];
    var i := 0;
    while i < |blocks|
      invariant 0 <= i <= |blocks| && |rows| == i
      invariant forall j :: 0 <= j < i ==> blocks[j].code != ENDB
      invariant forall k :: 0 <= k < i ==>
        rows[k] == SizeRow(Tag(blocks[k].code), structTypeName(blocks[k].sdnaNr), blocks[k].nr,
                           blocks[k].len + SizeOfBHead)
    {
      if blocks[i].code == ENDB {
        break;
      }
      var b := blocks[i];
      rows := rows + [SizeRow(Tag(b.code), structTypeName(b.sdnaNr), b.nr, b.len + SizeOfBHead)];
      i := i + 1;
    }
    EndIndexAt(blocks, i);
  }

  // ---------------------------------------------------------------------
  // BLO_blendhandle_get_datablock_names / _info

  /** A block the name and info scans list. */
  predicate Listed(b: BHead, ofType: int, assetsOnly: bool)
  {
    b.code == ofType && (!assetsOnly || b.asset.Some?)
  }

  /** The listed blocks, in file order. */
  function ListedBlocks(s: seq<BHead>, ofType: int, assetsOnly: bool): (r: seq<BHead>)
    ensures |r| <= |s|
  {
    if s == [] then []
    else
      var r := ListedBlocks(s[..|s| - 1], ofType, assetsOnly);
      if Listed(s[|s| - 1], ofType, assetsOnly) then r + [s[|s| - 1]] else r
  }

  /** The listed blocks are exactly the blocks of the scan that pass the filter. */
  lemma {:induction false} ListedBlocksExactly(s: seq<BHead>, ofType: int, assetsOnly: bool)
    ensures forall k :: 0 <= k < |ListedBlocks(s, ofType, assetsOnly)| ==>
      Listed(ListedBlocks(s, ofType, assetsOnly)[k], ofType, assetsOnly) && ListedBlocks(s, ofType, assetsOnly)[k] in s
    ensures forall b :: b in s && Listed(b, ofType, assetsOnly) ==> b in ListedBlocks(s, ofType, assetsOnly)
  {
    if s != [] {
      var init := s[..|s| - 1];
      ListedBlocksExactly(init, ofType, assetsOnly);
      assert forall b :: b in s ==> b in init || b == s[|s| - 1];
      assert forall b :: b in init ==> b in s;
    }
  }

  function Names(s: seq<BHead>): (r: seq<string>)
    ensures |r| == |s| && forall k :: 0 <= k < |s| ==> r[k] == NameOf(s[k])
  {
    seq(|s|, k requires 0 <= k < |s| => NameOf(s[k]))
  }

  /** One more block of the scan adds it to the listed blocks when it
      passes the filter. */
  lemma ListedStep(blocks: seq<BHead>, i: nat, ofType: int, assetsOnly: bool)
    requires i < |blocks|
    ensures ListedBlocks(blocks[..i + 1], ofType, assetsOnly) ==
            ListedBlocks(blocks[..i], ofType, assetsOnly) + (if Listed(blocks[i], ofType, assetsOnly) then [blocks[i]] else [])
  {
    assert blocks[..i + 1][..i] == blocks[..i];
  }

  lemma NamesSnoc(s: seq<BHead>, b: BHead)
    ensures Names(s + [b]) == Names(s) + [NameOf(b)]
  {
  }

  /** The names, latest first, after one more block of the scan. */
  lemma ListedNamesStep(blocks: seq<BHead>, i: nat, ofType: int, assetsOnly: bool)
    requires i < |blocks|
    ensures var after := Reverse(Names(ListedBlocks(blocks[..i + 1], ofType, assetsOnly)));
      var before := Reverse(Names(ListedBlocks(blocks[..i], ofType, assetsOnly)));
      (Listed(blocks[i], ofType, assetsOnly) ==> after == [NameOf(blocks[i])] + before) &&
      (!Listed(blocks[i], ofType, assetsOnly) ==> after == before)
  {
    var before := ListedBlocks(blocks[..i], ofType, assetsOnly);
    ListedStep(blocks, i, ofType, assetsOnly);
    if Listed(blocks[i], ofType, assetsOnly) {
      NamesSnoc(before, blocks[i]);
      ReverseSnoc(Names(before), NameOf(blocks[i]));
    } else {
      assert before + [] == before;
    }
  }

  /** BLO_blendhandle_get_datablock_names: the names of the blocks of one
      type (assets only, if asked), latest in the file first. The type is
      checked before ENDB, so a scan for ENDB itself does not stop. */
  method GetDatablockNames(blocks: seq<BHead>, ofType: int, assetsOnly: bool)
    returns (names: seq<string>, total: int)
    ensures total == |names|
    ensures names == Reverse(Names(ListedBlocks(Scanned(blocks, ofType == ENDB), ofType, assetsOnly)))
  {
    names := [];
    total := 0;
    var i := 0;
    while i < |blocks|
      invariant 0 <= i <= |blocks|
      invariant total == |names|
      invariant ofType != ENDB ==> i <= EndIndex(blocks)
      invariant names == Reverse(Names(ListedBlocks(blocks[..i], ofType, assetsOnly)))
    {
      var b := blocks[i];
      if b.code != ofType && b.code == ENDB {
        break;
      }
      if ofType != ENDB {
        BeforeEnd(blocks, i);
      }
      ListedNamesStep(blocks, i, ofType, assetsOnly);
      if b.code == ofType && !(assetsOnly && b.asset.None?) {
        names := [NameOf(b)] + names;
        total := total + 1;
      }
      i := i + 1;
    }
    ScanStop(blocks, i, ofType == ENDB);
  }

  /** The asset data after a listed asset: DATA blocks up to the next
      other block, all before the first ENDB and none of them listed. */
  lemma AssetDataSkip(blocks: seq<BHead>, from: nat, ofType: int, assetsOnly: bool)
    requires from <= EndIndex(blocks)
    ensures var next := NextNonData(blocks, from);
      next <= EndIndex(blocks) &&
      (ofType != DATA ==>
        ListedBlocks(blocks[..next], ofType, assetsOnly) == ListedBlocks(blocks[..from], ofType, assetsOnly))
  {
    var next := NextNonData(blocks, from);
    DataRunBeforeEnd(blocks, from, next);
    if ofType != DATA {
      ListedSkipsData(blocks, from, next, ofType, assetsOnly);
    }
  }

  /** BLODataBlockInfo: the name and the asset data. */
  datatype BlockInfo = BlockInfo(name: string, assetData: Option<nat>)

  function Infos(s: seq<BHead>): (r: seq<BlockInfo>)
    ensures |r| == |s| && forall k :: 0 <= k < |s| ==> r[k] == BlockInfo(NameOf(s[k]), s[k].asset)
  {
    seq(|s|, k requires 0 <= k < |s| => BlockInfo(NameOf(s[k]), s[k].asset))
  }

  /** The infos, latest first, after one more block of the scan. */
  lemma ListedInfosStep(blocks: seq<BHead>, i: nat, ofType: int, assetsOnly: bool)
    requires i < |blocks|
    ensures var after := Reverse(Infos(ListedBlocks(blocks[..i + 1], ofType, assetsOnly)));
      var before := Reverse(Infos(ListedBlocks(blocks[..i], ofType, assetsOnly)));
      (Listed(blocks[i], ofType, assetsOnly) ==> after == [BlockInfo(NameOf(blocks[i]), blocks[i].asset)] + before) &&
      (!Listed(blocks[i], ofType, assetsOnly) ==> after == before)
  {
    var before := ListedBlocks(blocks[..i], ofType, assetsOnly);
    ListedStep(blocks, i, ofType, assetsOnly);
    if Listed(blocks[i], ofType, assetsOnly) {
      var info := BlockInfo(NameOf(blocks[i]), blocks[i].asset);
      assert Infos(before + [blocks[i]]) == Infos(before) + [info];
      ReverseSnoc(Infos(before), info);
    } else {
      assert before + [] == before;
    }
  }

  /** The index of the first block at or after `from` that is not a DATA block. */
  function NextNonData(blocks: seq<BHead>, from: nat): (r: nat)
    requires from <= |blocks|
    ensures from <= r <= |blocks|
    ensures forall j :: from <= j < r ==> blocks[j].code == DATA
    ensures r < |blocks| ==> blocks[r].code != DATA
    decreases |blocks| - from
  {
    if from == |blocks| || blocks[from].code != DATA then from else NextNonData(blocks, from + 1)
  }

  /** Passing over DATA blocks changes nothing in a scan for another type. */
  lemma ListedSkipsData(blocks: seq<BHead>, lo: nat, hi: nat, ofType: int, assetsOnly: bool)
    requires lo <= hi <= |blocks| && ofType != DATA
    requires forall j :: lo <= j < hi ==> blocks[j].code == DATA
    ensures ListedBlocks(blocks[..hi], ofType, assetsOnly) == ListedBlocks(blocks[..lo], ofType, assetsOnly)
    decreases hi
  {
    if lo < hi {
      assert blocks[..hi - 1] == blocks[..hi][..hi - 1];
      ListedSkipsData(blocks, lo, hi - 1, ofType, assetsOnly);
    }
  }

  /** BLO_blendhandle_get_datablock_info: as the name scan, with ENDB
      checked first; after an asset the following DATA blocks, which hold
      its asset data, are read with it. */
  /** `info` describes a block before index `i` that the scan lists. */
  ghost predicate ListedBefore(blocks: seq<BHead>, i: int, ofType: int, assetsOnly: bool, info: BlockInfo)
  {
    exists j :: 0 <= j < i && j < |blocks| && Listed(blocks[j], ofType, assetsOnly) &&
                info == BlockInfo(NameOf(blocks[j]), blocks[j].asset)
  }

  lemma ListedLater(blocks: seq<BHead>, i: int, i': int, ofType: int, assetsOnly: bool)
    requires i <= i'
    ensures forall info :: ListedBefore(blocks, i, ofType, assetsOnly, info) ==>
                           ListedBefore(blocks, i', ofType, assetsOnly, info)
  {
  }

  /** Reporting block `i` keeps every reported info listed, up to any
      later index. */
  lemma ListedPrepend(blocks: seq<BHead>, infos: seq<BlockInfo>, i: nat, i': int, ofType: int, assetsOnly: bool)
    requires i < i' && i < |blocks| && Listed(blocks[i], ofType, assetsOnly)
    requires forall k :: 0 <= k < |infos| ==> ListedBefore(blocks, i, ofType, assetsOnly, infos[k])
    ensures var infos' := [BlockInfo(NameOf(blocks[i]), blocks[i].asset)] + infos;
      forall k :: 0 <= k < |infos'| ==> ListedBefore(blocks, i', ofType, assetsOnly, infos'[k])
  {
    ListedLater(blocks, i, i', ofType, assetsOnly);
    var infos' := [BlockInfo(NameOf(blocks[i]), blocks[i].asset)] + infos;
    assert forall k :: 1 <= k < |infos'| ==> infos'[k] == infos[k - 1];
  }

  method GetDatablockInfo(blocks: seq<BHead>, ofType: int, assetsOnly: bool)
    returns (infos: seq<BlockInfo>, total: int)
    ensures total == |infos|
    ensures ofType != DATA ==>
      infos == Reverse(Infos(ListedBlocks(Scanned(blocks, false), ofType, assetsOnly)))
    // with DATA asked for, asset data skips the DATA blocks after it, so
    // only some of the listed blocks are reported
    ensures forall k :: 0 <= k < |infos| ==> ListedBefore(blocks, EndIndex(blocks), ofType, assetsOnly, infos[k])
  {
    infos := [];
    total := 0;
    var i := 0;
    while i < |blocks|
      invariant 0 <= i <= |blocks|
      invariant total == |infos|
      invariant i <= EndIndex(blocks)
      invariant ofType != DATA ==> infos == Reverse(Infos(ListedBlocks(blocks[..i], ofType, assetsOnly)))
      invariant forall k :: 0 <= k < |infos| ==> ListedBefore(blocks, i, ofType, assetsOnly, infos[k])
    {
      var b := blocks[i];
      if b.code == ENDB {
        break;
      }
      BeforeEnd(blocks, i);
      ListedInfosStep(blocks, i, ofType, assetsOnly);
      if b.code == ofType && !(assetsOnly && b.asset.None?) {
        var info := BlockInfo(NameOf(b), b.asset);
        var next := if b.asset.Some? then NextNonData(blocks, i + 1) else i + 1;
        ListedPrepend(blocks, infos, i, next, ofType, assetsOnly);
        infos := [info] + infos;
        total := total + 1;
        if b.asset.Some? {
          AssetDataSkip(blocks, i + 1, ofType, assetsOnly);
          i := next;
          continue;
        }
      } else {
        ListedLater(blocks, i, i + 1, ofType, assetsOnly);
      }
      i := i + 1;
    }
    ScanStop(blocks, i, false);
    ListedLater(blocks, i, EndIndex(blocks), ofType, assetsOnly);
  }

  // ---------------------------------------------------------------------
  // Previews

  /** A PreviewImage as these scans build it: per icon size the width,
      height and the index of the block its rect is read from. */
  datatype Preview = Preview(w: seq<int>, h: seq<int>, rectBlock: seq<Option<nat>>)

  predicate WellSized(p: Payload)
  {
    p.PreviewPayload? && |p.hasRect| == NumIconSizes && |p.w| == NumIconSizes && |p.h| == NumIconSizes
  }

  /** An icon size whose rect is stored: rect, width and height all nonzero. */
  predicate RectStored(p: Payload, k: nat)
    requires WellSized(p) && k < NumIconSizes
  {
    p.hasRect[k] && p.w[k] != 0 && p.h[k] != 0
  }

  /** How many of the first `k` icon sizes have their rect stored. */
  function StoredBefore(p: Payload, k: nat): (r: nat)
    requires WellSized(p) && k <= NumIconSizes
    ensures r <= k
  {
    if k == 0 then 0 else StoredBefore(p, k - 1) + (if RectStored(p, k - 1) then 1 else 0)
  }

  /** blo_blendhandle_read_preview_rects: each stored rect is read from the
      next block in turn; an icon size without one gets no rect and a zero
      size. Returns the index of the last block read. */
  /** `result` is the preview read from the PreviewImage `p` of the DATA
      block at `at`: each stored rect lies in the block after the previous
      one and keeps its size; an absent rect has none. */
  predicate PreviewReadFrom(result: Preview, at: nat, p: Payload)
    requires WellSized(p)
  {
    |result.w| == |result.h| == |result.rectBlock| == NumIconSizes &&
    forall k :: 0 <= k < NumIconSizes ==>
      if RectStored(p, k) then
        result.rectBlock[k] == Some(at + StoredBefore(p, k) + 1) && result.w[k] == p.w[k] && result.h[k] == p.h[k]
      else
        result.rectBlock[k] == None && result.w[k] == 0 && result.h[k] == 0
  }

  method ReadPreviewRects(at: nat, p: Payload) returns (result: Preview, last: nat)
    requires WellSized(p)
    ensures last == at + StoredBefore(p, NumIconSizes)
    ensures PreviewReadFrom(result, at, p)
  {
    result := Preview(p.w, p.h, seq(NumIconSizes, _ => None));
    last := at;
    var k := 0;
    while k < NumIconSizes
      invariant 0 <= k <= NumIconSizes
      invariant last == at + StoredBefore(p, k)
      invariant |result.w| == |result.h| == |result.rectBlock| == NumIconSizes
      invariant forall j :: 0 <= j < k ==>
        if RectStored(p, j) then
          result.rectBlock[j] == Some(at + StoredBefore(p, j) + 1) && result.w[j] == p.w[j] && result.h[j] == p.h[j]
        else
          result.rectBlock[j] == None && result.w[j] == 0 && result.h[j] == 0
      invariant forall j :: k <= j < NumIconSizes ==> result.w[j] == p.w[j] && result.h[j] == p.h[j]
    {
      if RectStored(p, k) {
        last := last + 1;
        result := result.(rectBlock := result.rectBlock[k := Some(last)]);
      } else {
        result := Preview(result.w[k := 0], result.h[k := 0], result.rectBlock[k := None]);
      }
      k := k + 1;
    }
  }

  /** A DATA block holding a PreviewImage. */
  predicate IsPreviewBlock(b: BHead, previewSdna: int)
  {
    b.code == DATA && b.sdnaNr == previewSdna
  }

  /** What the file format promises and the preview readers rely on: every
      PreviewImage read is well sized, and its stored rects follow it as
      DATA blocks of another struct. */
  ghost predicate RectsFollow(blocks: seq<BHead>, previewSdna: int)
  {
    forall i :: 0 <= i < |blocks| && IsPreviewBlock(blocks[i], previewSdna) && blocks[i].payload.Some? ==>
      var p := blocks[i].payload.value;
      WellSized(p) && i + StoredBefore(p, NumIconSizes) < |blocks| &&
      forall j :: i < j <= i + StoredBefore(p, NumIconSizes) ==>
        blocks[j].code == DATA && blocks[j].sdnaNr != previewSdna
  }

  /** The block whose name is looked for: one of the type, named `name`. */
  predicate NamedBlock(b: BHead, ofType: int, name: string)
  {
    b.code != DATA && b.code != ENDB && b.code == ofType && NameOf(b) == name
  }

  /** Where the preview scan finds the named block: the first such block,
      provided no ENDB comes before it. */
  function FindNamed(blocks: seq<BHead>, from: nat, ofType: int, name: string): (r: Option<nat>)
    requires from <= |blocks|
    ensures r.Some? ==> from <= r.value < |blocks| && NamedBlock(blocks[r.value], ofType, name)
    ensures r.Some? ==> forall j :: from <= j < r.value ==> blocks[j].code != ENDB && !NamedBlock(blocks[j], ofType, name)
    ensures r.None? ==> forall j :: from <= j < |blocks| && NamedBlock(blocks[j], ofType, name) ==>
      exists e :: from <= e < j && blocks[e].code == ENDB
    decreases |blocks| - from
  {
    if from == |blocks| then None
    else if blocks[from].code == ENDB then None
    else if NamedBlock(blocks[from], ofType, name) then Some(from)
    else FindNamed(blocks, from + 1, ofType, name)
  }

  /** After the named block: the first block that is not a DATA block of
      another struct, if it is a preview. */
  function FindPreview(blocks: seq<BHead>, from: nat, previewSdna: int): (r: Option<nat>)
    requires from <= |blocks|
    ensures r.Some? ==> from <= r.value < |blocks| && IsPreviewBlock(blocks[r.value], previewSdna)
    ensures r.Some? ==> forall j :: from <= j < r.value ==> blocks[j].code == DATA && blocks[j].sdnaNr != previewSdna
    ensures r.None? ==> forall j :: from <= j < |blocks| && IsPreviewBlock(blocks[j], previewSdna) ==>
      exists e :: from <= e < j && blocks[e].code != DATA
    decreases |blocks| - from
  {
    if from == |blocks| then None
    else if IsPreviewBlock(blocks[from], previewSdna) then Some(from)
    else if blocks[from].code != DATA then None
    else FindPreview(blocks, from + 1, previewSdna)
  }

  /** The preview of the named block, as the file holds it. */
  function PreviewOf(blocks: seq<BHead>, ofType: int, name: string, previewSdna: int): Option<(nat, Payload)>
  {
    match FindNamed(blocks, 0, ofType, name)
    case None => None
    case Some(m) =>
      match FindPreview(blocks, m + 1, previewSdna)
      case None => None
      case Some(p) => if blocks[p].payload.Some? then Some((p, blocks[p].payload.value)) else None
  }

  /** BLO_blendhandle_get_preview_for_id: the PreviewImage in the DATA
      blocks that follow the named block; none when ENDB comes before the
      name, when a block other than DATA comes before a PreviewImage, or
      when the PreviewImage reads as nothing. */
  method GetPreviewForId(blocks: seq<BHead>, ofType: int, name: string, previewSdna: int)
    returns (r: Option<Preview>)
    requires RectsFollow(blocks, previewSdna)
    ensures r.None? <==> PreviewOf(blocks, ofType, name, previewSdna).None?
    ensures r.Some? ==> var found := PreviewOf(blocks, ofType, name, previewSdna).value;
      WellSized(found.1) && PreviewReadFrom(r.value, found.0, found.1) &&
      forall k :: 0 <= k < NumIconSizes && r.value.rectBlock[k].Some? ==>
        found.0 < r.value.rectBlock[k].value < |blocks|
  {
    var looking := false;
    ghost var m := 0;
    var i := 0;
    while i < |blocks|
      invariant 0 <= i <= |blocks|
      invariant !looking ==> FindNamed(blocks, 0, ofType, name) == FindNamed(blocks, i, ofType, name)
      invariant looking ==> m < i && FindNamed(blocks, 0, ofType, name) == Some(m)
      invariant looking ==> FindPreview(blocks, m + 1, previewSdna) == FindPreview(blocks, i, previewSdna)
    {
      var b := blocks[i];
      if b.code == DATA {
        if looking && b.sdnaNr == previewSdna {
          if b.payload.None? {
            return None;
          }
          var preview, _ := ReadPreviewRects(i, b.payload.value);
          return Some(preview);
        }
      } else if looking || b.code == ENDB {
        return None;
      } else if b.code == ofType {
        if NameOf(b) == name {
          looking := true;
          m := i;
        }
      }
      i := i + 1;
    }
    return None;
  }

  /** The ID types that carry previews. */
  const PreviewIdCodes: set<int> := {
    MakeId2('M', 'A'), MakeId2('T', 'E'), MakeId2('I', 'M'), MakeId2('W', 'O'), MakeId2('L', 'A'),
    MakeId2('O', 'B'), MakeId2('G', 'R'), MakeId2('S', 'C'), MakeId2('A', 'C')
  }

  predicate HasPreviewEntry(b: BHead, ofType: int)
  {
    b.code == ofType && IdCodeOf(b.idName) in PreviewIdCodes
  }

  function CountPreviewIds(s: seq<BHead>, ofType: int): (r: nat)
    ensures r <= |s|
  {
    if s == [] then 0
    else CountPreviewIds(s[..|s| - 1], ofType) + (if HasPreviewEntry(s[|s| - 1], ofType) then 1 else 0)
  }

  lemma CountSkipsData(blocks: seq<BHead>, lo: nat, hi: nat, ofType: int)
    requires lo <= hi <= |blocks| && ofType != DATA
    requires forall j :: lo <= j < hi ==> blocks[j].code == DATA
    ensures CountPreviewIds(blocks[..hi], ofType) == CountPreviewIds(blocks[..lo], ofType)
    decreases hi
  {
    if lo < hi {
      assert blocks[..hi - 1] == blocks[..hi][..hi - 1];
      CountSkipsData(blocks, lo, hi - 1, ofType);
    }
  }

  /** One more block counts once if it starts a preview entry. */
  lemma CountPreviewStep(blocks: seq<BHead>, i: nat, ofType: int)
    requires i < |blocks|
    ensures CountPreviewIds(blocks[..i + 1], ofType) ==
      CountPreviewIds(blocks[..i], ofType) + (if HasPreviewEntry(blocks[i], ofType) then 1 else 0)
  {
    assert blocks[..i + 1][..i] == blocks[..i];
  }

  /** A PreviewImage block and the rect blocks after it: all DATA, so they
      add no entry and stay before the first ENDB. */
  lemma PreviewRun(blocks: seq<BHead>, i: nat, ofType: int, previewSdna: int)
    requires RectsFollow(blocks, previewSdna)
    requires i < |blocks| && IsPreviewBlock(blocks[i], previewSdna) && blocks[i].payload.Some?
    ensures var last := i + StoredBefore(blocks[i].payload.value, NumIconSizes);
      last < |blocks| &&
      (ofType != DATA ==> CountPreviewIds(blocks[..last + 1], ofType) == CountPreviewIds(blocks[..i], ofType)) &&
      (i <= EndIndex(blocks) ==> last + 1 <= EndIndex(blocks))
  {
    var last := i + StoredBefore(blocks[i].payload.value, NumIconSizes);
    assert forall j :: i <= j < last + 1 ==> blocks[j].code == DATA;
    if ofType != DATA {
      CountSkipsData(blocks, i, last + 1, ofType);
    }
    if i <= EndIndex(blocks) {
      DataRunBeforeEnd(blocks, i, last + 1);
    }
  }

  /** Reads the PreviewImage at block `at` and the rect blocks after it;
      `last` is the last block read. */
  method ReadPreviewAt(blocks: seq<BHead>, at: nat, ofType: int, previewSdna: int) returns (preview: Preview, last: nat)
    requires RectsFollow(blocks, previewSdna)
    requires at < |blocks| && IsPreviewBlock(blocks[at], previewSdna) && blocks[at].payload.Some?
    ensures at <= last < |blocks|
    ensures ofType != DATA ==> CountPreviewIds(blocks[..last + 1], ofType) == CountPreviewIds(blocks[..at], ofType)
    ensures at <= EndIndex(blocks) ==> last + 1 <= EndIndex(blocks)
  {
    preview, last := ReadPreviewRects(at, blocks[at].payload.value);
    PreviewRun(blocks, at, ofType, previewSdna);
  }

  /** The zero-filled PreviewImage an entry starts as. */
  const EmptyPreview: Preview := Preview([0, 0], [0, 0], [None, None])

  /** BLO_blendhandle_get_previews: one entry per block of the type whose ID
      carries a preview, latest first; a PreviewImage found in the DATA
      blocks after it fills the newest entry, until a block of another kind
      ends the search. */
  method GetPreviews(blocks: seq<BHead>, ofType: int, previewSdna: int)
    returns (previews: seq<Preview>, total: int)
    requires RectsFollow(blocks, previewSdna)
    ensures total == |previews|
    ensures ofType != DATA ==> total == CountPreviewIds(Scanned(blocks, ofType == ENDB), ofType)
  {
    previews := [];
    total := 0;
    var looking := false;
    var i := 0;
    while i < |blocks|
      invariant 0 <= i <= |blocks|
      invariant total == |previews|
      invariant ofType != ENDB ==> i <= EndIndex(blocks)
      invariant ofType != DATA ==> total == CountPreviewIds(blocks[..i], ofType)
      invariant looking ==> |previews| > 0
    {
      var b := blocks[i];
      if b.code == ofType {
        if IdCodeOf(b.idName) in PreviewIdCodes {
          previews := [EmptyPreview] + previews;
          total := total + 1;
          looking := true;
        }
      } else if b.code == DATA {
        if looking && b.sdnaNr == previewSdna && b.payload.Some? {
          var preview, last := ReadPreviewAt(blocks, i, ofType, previewSdna);
          previews := [preview] + previews[1..];
          i := last + 1;
          continue;
        }
      } else if b.code == ENDB {
        break;
      } else {
        looking := false;
      }
      CountPreviewStep(blocks, i, ofType);
      if ofType != ENDB {
        BeforeEnd(blocks, i);
      }
      i := i + 1;
    }
    ScanStop(blocks, i, ofType == ENDB);
  }

  // ---------------------------------------------------------------------
  // BLO_blendhandle_get_linkable_groups

  /** The first occurrence of each element, in order. */
  function FirstOccurrences<T(==)>(s: seq<T>): seq<T>
  {
    if s == [] then []
    else
      var d := FirstOccurrences(s[..|s| - 1]);
      if s[|s| - 1] in d then d else d + [s[|s| - 1]]
  }

  /** Every element is kept. */
  lemma {:induction false} FirstOccurrencesMembers<T>(s: seq<T>)
    ensures forall x :: x in FirstOccurrences(s) <==> x in s
  {
    if s != [] {
      FirstOccurrencesMembers(s[..|s| - 1]);
      assert forall x :: x in s <==> x in s[..|s| - 1] || x == s[|s| - 1];
    }
  }

  /** No element is kept twice. */
  lemma {:induction false} FirstOccurrencesDistinct<T>(s: seq<T>)
    ensures forall a, b :: 0 <= a < b < |FirstOccurrences(s)| ==> FirstOccurrences(s)[a] != FirstOccurrences(s)[b]
  {
    if s != [] {
      FirstOccurrencesDistinct(s[..|s| - 1]);
    }
  }

  /** Element `k` of the reversal is element `|s| - 1 - k` of `s`. */
  lemma {:induction false} ReverseAt<T>(s: seq<T>)
    ensures forall k :: 0 <= k < |s| ==> Reverse(s)[k] == s[|s| - 1 - k]
  {
    if s != [] {
      ReverseAt(s[..|s| - 1]);
    }
  }

  /** A 32-bit block code passed where the ID-type functions take a
      `short`: its low 16 bits, read as a signed number. */
  function ShortCode(code: int): (r: int)
    ensures -0x8000 <= r < 0x8000 && (code - r) % 0x1_0000 == 0
  {
    (code + 0x8000) % 0x1_0000 - 0x8000
  }

  /** Block `b` has a valid, linkable ID type, once its code is cut to a
      `short`, and `n` is that type's name. */
  predicate LinkableName(b: BHead, isValid: int -> bool, isLinkable: int -> bool, nameOf: int -> string, n: string)
  {
    var c := ShortCode(b.code);
    isValid(c) && isLinkable(c) && nameOf(c) == n
  }

  /** The type names of the blocks, in file order, that are linkable ID
      types. */
  function LinkableNames(s: seq<BHead>, isValid: int -> bool, isLinkable: int -> bool, nameOf: int -> string)
    : seq<string>
  {
    if s == [] then []
    else
      var r := LinkableNames(s[..|s| - 1], isValid, isLinkable, nameOf);
      var c := ShortCode(s[|s| - 1].code);
      if isValid(c) && isLinkable(c) then r + [nameOf(c)] else r
  }

  /** The linkable names are those of the blocks whose type is a valid,
      linkable ID type. */
  lemma {:induction false} LinkableNamesExactly(s: seq<BHead>, isValid: int -> bool, isLinkable: int -> bool,
                                                nameOf: int -> string)
    ensures forall n :: n in LinkableNames(s, isValid, isLinkable, nameOf) <==>
      exists j :: 0 <= j < |s| && LinkableName(s[j], isValid, isLinkable, nameOf, n)
  {
    if s != [] {
      LinkableNamesExactly(s[..|s| - 1], isValid, isLinkable, nameOf);
      assert forall j :: 0 <= j < |s| - 1 ==> s[..|s| - 1][j] == s[j];
    }
  }

  /** One more block: its type name is added if it is linkable and new. */
  lemma LinkableStep(blocks: seq<BHead>, i: nat, isValid: int -> bool, isLinkable: int -> bool,
                     nameOf: int -> string)
    requires i < |blocks|
    ensures var before := FirstOccurrences(LinkableNames(blocks[..i], isValid, isLinkable, nameOf));
      var c := ShortCode(blocks[i].code);
      FirstOccurrences(LinkableNames(blocks[..i + 1], isValid, isLinkable, nameOf)) ==
        if isValid(c) && isLinkable(c) && nameOf(c) !in before then before + [nameOf(c)] else before
  {
    var c := ShortCode(blocks[i].code);
    var namesBefore := LinkableNames(blocks[..i], isValid, isLinkable, nameOf);
    assert blocks[..i + 1][..i] == blocks[..i];
    if isValid(c) && isLinkable(c) {
      assert LinkableNames(blocks[..i + 1], isValid, isLinkable, nameOf) == namesBefore + [nameOf(c)];
      assert (namesBefore + [nameOf(c)])[..|namesBefore|] == namesBefore;
    }
  }

  /** BLO_blendhandle_get_linkable_groups: the name of each linkable ID
      type present before ENDB, once each, the first seen last. The
      de-duplicating set holds the static name of each type (the names of
      distinct types are distinct strings). */
  method GetLinkableGroups(blocks: seq<BHead>, isValid: int -> bool, isLinkable: int -> bool,
                           nameOf: int -> string)
    returns (names: seq<string>)
    ensures names == Reverse(FirstOccurrences(LinkableNames(Scanned(blocks, false), isValid, isLinkable, nameOf)))
  {
    var gathered: set<string> := {};
    names := [];
    var i := 0;
    while i < |blocks|
      invariant 0 <= i <= |blocks|
      invariant i <= EndIndex(blocks)
      invariant forall n :: n in gathered <==> n in FirstOccurrences(LinkableNames(blocks[..i], isValid, isLinkable, nameOf))
      invariant names == Reverse(FirstOccurrences(LinkableNames(blocks[..i], isValid, isLinkable, nameOf)))
    {
      if blocks[i].code == ENDB {
        break;
      }
      BeforeEnd(blocks, i);
      ghost var before := FirstOccurrences(LinkableNames(blocks[..i], isValid, isLinkable, nameOf));
      LinkableStep(blocks, i, isValid, isLinkable, nameOf);
      var c := ShortCode(blocks[i].code);
      if isValid(c) && isLinkable(c) {
        var str := nameOf(c);
        if str !in gathered {
          gathered := gathered + {str};
          ReverseSnoc(before, str);
          names := [str] + names;
        }
      }
      i := i + 1;
    }
    ScanStop(blocks, i, false);
  }

  /** The linkable groups name each linkable ID type found before ENDB,
      and no name twice. */
  lemma LinkableGroupsExactly(blocks: seq<BHead>, isValid: int -> bool, isLinkable: int -> bool,
                              nameOf: int -> string)
    ensures var names := Reverse(FirstOccurrences(LinkableNames(Scanned(blocks, false), isValid, isLinkable, nameOf)));
      (forall a, b :: 0 <= a < b < |names| ==> names[a] != names[b]) &&
      forall n :: n in names <==>
        exists j :: 0 <= j < EndIndex(blocks) && LinkableName(blocks[j], isValid, isLinkable, nameOf, n)
  {
    var scanned := Scanned(blocks, false);
    assert |scanned| == EndIndex(blocks);
    assert forall j :: 0 <= j < |scanned| ==> scanned[j] == blocks[j];
    var first := FirstOccurrences(LinkableNames(scanned, isValid, isLinkable, nameOf));
    FirstOccurrencesMembers(LinkableNames(scanned, isValid, isLinkable, nameOf));
    FirstOccurrencesDistinct(LinkableNames(scanned, isValid, isLinkable, nameOf));
    LinkableNamesExactly(scanned, isValid, isLinkable, nameOf);
    ReverseAt(first);
    var names := Reverse(first);
    assert forall n :: n in names <==> n in first by {
      forall n | n in first
        ensures n in names
      {
        var k :| 0 <= k < |first| && first[k] == n;
        assert names[|first| - 1 - k] == n;
      }
    }
  }
}
