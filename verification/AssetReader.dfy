/** The firmware's reader of the assets partition, and the round trip from packer to lookup. */
module AssetReader {
  import opened Basics
  import opened Bytes
  import opened Sequences

  import opened AssetContainer

  datatype Asset = Asset(size: uint32, offset: uint32)

  datatype InitOutcome = Ready | Rejected | Fault

  datatype Lookup = Found(data: seq<byte>) | NotFound | BadMagic | OutsideMapping

  /** Partition sizes for which rounding up to an MMU page does not wrap. */
  predicate ValidSize(size: nat) {
    HEADER_SIZE <= size <= 0xFFFF_0000
  }

  /** The NUL-terminated string at `at`; none when it runs off the mapping. */
  function CString(mem: seq<byte>, at: nat): Option<seq<byte>>
    requires at <= |mem|
    decreases |mem| - at
  {
    if at == |mem| then None
    else if mem[at] == 0 then Some([])
    else
      var rest := CString(mem, at + 1);
      if rest.None? then None else Some([mem[at]] + rest.value)
  }

  function StoredLen(flash: seq<byte>): uint32
    requires |flash| >= HEADER_SIZE
  {
    U32(flash[8..12])
  }

  /** The length check every image has to pass first. */
  predicate LengthAccepted(flash: seq<byte>)
    requires |flash| >= HEADER_SIZE
  {
    0 < StoredLen(flash) <= |flash| - HEADER_SIZE
  }

  function MapSize(storedLen: nat, partitionSize: nat): nat {
    var rounded := (HEADER_SIZE + storedLen + MMU_PAGE - 1) / MMU_PAGE * MMU_PAGE;
    if rounded > partitionSize then partitionSize else rounded
  }

  function StorageSize(freePages: nat): nat {
    freePages * MMU_PAGE % 0x1_0000_0000
  }

  function Mapped(flash: seq<byte>): seq<byte>
    requires |flash| >= HEADER_SIZE
  {
    flash[..MapSize(StoredLen(flash), |flash|)]
  }

  function AssetAt(root: seq<byte>, storedFiles: uint32, at: nat): Asset
    requires at + ENTRY_SIZE <= |root|
  {
    Asset(U32(root[at + 32..at + 36]), Low32(HEADER_SIZE + ENTRY_SIZE * storedFiles + U32(root[at + 36..at + 40])))
  }

  /** The index after the first `n` table entries; none when the table leaves the mapping. */
  ghost function IndexUpTo(root: seq<byte>, storedFiles: uint32, n: nat): Option<map<seq<byte>, Asset>> {
    if n == 0 then Some(map[])
    else
      var earlier := IndexUpTo(root, storedFiles, n - 1);
      var at := HEADER_SIZE + ENTRY_SIZE * (n - 1);
      if earlier.None? || at + ENTRY_SIZE > |root| || CString(root, at).None? then None
      else Some(earlier.value[CString(root, at).value := AssetAt(root, storedFiles, at)])
  }

  ghost function Outcome(flash: seq<byte>, freePages: nat): InitOutcome
    requires ValidSize(|flash|)
  {
    var len := StoredLen(flash);
    if !LengthAccepted(flash) || StorageSize(freePages) < MapSize(len, |flash|) then Rejected
    else if ComputeChecksum(flash[HEADER_SIZE..HEADER_SIZE + len]) != U32(flash[4..8]) then Rejected
    else if IndexUpTo(Mapped(flash), U32(flash[..4]), U32(flash[..4])).None? then Fault
    else Ready
  }

  ghost function LookupIn(assets: map<seq<byte>, Asset>, root: seq<byte>, name: seq<byte>): Lookup {
    if name !in assets then NotFound
    else
      var asset := assets[name];
      if asset.offset + 2 > |root| then OutsideMapping
      else if root[asset.offset..asset.offset + 2] != MAGIC then BadMagic
      else if asset.offset + 2 + asset.size > |root| then OutsideMapping
      else Found(root[asset.offset + 2..asset.offset + 2 + asset.size])
  }

  lemma MapCoversImage(storedLen: nat, size: nat)
    requires ValidSize(size) && HEADER_SIZE + storedLen <= size
    ensures HEADER_SIZE + storedLen <= MapSize(storedLen, size) <= size
    ensures HEADER_SIZE + storedLen + MMU_PAGE - 1 < 0x1_0000_0000
  {
  }

  /** The wrapping 32-bit sum, masked, is the packer's unbounded sum, masked. */
  method CalculateChecksum(data: seq<byte>) returns (checksum: uint32)
    ensures checksum == ComputeChecksum(data)
  {
    var sum: uint32 := 0;
    for i := 0 to |data|
      invariant sum == Sum(data[..i]) % 0x1_0000_0000
    {
      assert data[..i + 1][..i] == data[..i];
      WrapStep(Sum(data[..i]), data[i]);
      sum := (sum as int + data[i] as int) % 0x1_0000_0000;
    }
    assert data[..|data|] == data;
    checksum := sum % 0x1_0000;
    WrapThenMask(Sum(data));
  }

  lemma WrapStep(total: nat, b: byte)
    ensures (total % 0x1_0000_0000 + b) % 0x1_0000_0000 == (total + b) % 0x1_0000_0000
  {
  }

  lemma WrapThenMask(total: nat)
    ensures total % 0x1_0000_0000 % 0x1_0000 == total % 0x1_0000
  {
  }

  class LvglStrategy {
    var assets: map<seq<byte>, Asset>
    var mmapRoot: seq<byte>
    var checksumValid: bool
    var partitionValid: bool

    constructor ()
      ensures assets == map[] && mmapRoot == [] && !checksumValid && !partitionValid
    {
      assets, mmapRoot, checksumValid, partitionValid := map[], [], false, false;
    }

    method UnApplyPartition()
      modifies this
      ensures assets == map[] && mmapRoot == [] && !checksumValid && partitionValid == old(partitionValid)
    {
      assets, mmapRoot, checksumValid := map[], [], false;
    }

    method InitializePartition(flash: seq<byte>, freePages: nat) returns (r: InitOutcome)
      requires ValidSize(|flash|)
      modifies this
      ensures r == Outcome(flash, freePages)
      ensures r.Ready? ==>
                && checksumValid && partitionValid && mmapRoot == Mapped(flash)
                && Some(assets) == IndexUpTo(mmapRoot, U32(flash[..4]), U32(flash[..4]))
      ensures r.Rejected? ==> !partitionValid && assets == map[] && (mmapRoot == old(mmapRoot) || mmapRoot == [])
      ensures r.Rejected? ==> checksumValid ==> old(checksumValid)
    {
      partitionValid := false;
      assets := map[];
      var storedFiles, storedChksum, storedLen := U32(flash[..4]), U32(flash[4..8]), U32(flash[8..12]);
      if storedLen == 0 || storedLen > |flash| - HEADER_SIZE {
        return Rejected;
      }
      MapCoversImage(storedLen, |flash|);
      var mapSize := MapSize(storedLen, |flash|);
      if StorageSize(freePages) < mapSize {
        return Rejected;
      }
      mmapRoot := flash[..mapSize];
      partitionValid := true;
      var calculated := CalculateChecksum(mmapRoot[HEADER_SIZE..HEADER_SIZE + storedLen]);
      assert mmapRoot[HEADER_SIZE..HEADER_SIZE + storedLen] == flash[HEADER_SIZE..HEADER_SIZE + storedLen];
      if calculated != storedChksum {
        UnApplyPartition();
        partitionValid := false;
        return Rejected;
      }
      checksumValid := true;
      var inside := IndexTable(storedFiles);
      r := if inside then Ready else Fault;
    }

    /** The indexing loop. */
    method IndexTable(storedFiles: uint32) returns (inside: bool)
      requires assets == map[]
      modifies this`assets
      ensures inside <==> IndexUpTo(mmapRoot, storedFiles, storedFiles).Some?
      ensures inside ==> Some(assets) == IndexUpTo(mmapRoot, storedFiles, storedFiles)
    {
      hide U32, CString;
      var i: nat := 0;
      while i < storedFiles
        invariant i <= storedFiles && Some(assets) == IndexUpTo(mmapRoot, storedFiles, i)
      {
        var item := HEADER_SIZE + i * ENTRY_SIZE;
        if item + ENTRY_SIZE > |mmapRoot| || CString(mmapRoot, item).None? {
          IndexStaysNone(mmapRoot, storedFiles, i + 1, storedFiles);
          return false;
        }
        assets := assets[CString(mmapRoot, item).value := AssetAt(mmapRoot, storedFiles, item)];
        i := i + 1;
      }
      inside := true;
    }

    method GetAssetData(name: seq<byte>) returns (r: Lookup)
      ensures r == LookupIn(assets, mmapRoot, name)
    {
      if name !in assets {
        return NotFound;
      }
      var asset := assets[name];
      if asset.offset + 2 > |mmapRoot| {
        return OutsideMapping;
      }
      var data := mmapRoot[asset.offset..];
      assert mmapRoot[asset.offset..asset.offset + 2] == [data[0], data[1]];
      if data[0] != 0x5A || data[1] != 0x5A {
        return BadMagic;
      }
      if 2 + asset.size > |data| {
        return OutsideMapping;
      }
      assert data[2..2 + asset.size] == mmapRoot[asset.offset + 2..asset.offset + 2 + asset.size];
      r := Found(data[2..2 + asset.size]);
    }
  }

  lemma {:induction false} IndexStaysNone(root: seq<byte>, storedFiles: uint32, n: nat, m: nat)
    requires n <= m && IndexUpTo(root, storedFiles, n).None?
    ensures IndexUpTo(root, storedFiles, m).None?
    decreases m
  {
    if n < m {
      IndexStaysNone(root, storedFiles, n, m - 1);
    }
  }

  // ---- the round trip ----

  /** What the reader's C-string field can hold: 1 to 31 ASCII bytes. */
  predicate ReadableName(name: seq<byte>) {
    1 <= |name| < NAME_SIZE && forall k :: 0 <= k < |name| ==> 0 < name[k] < 0x80
  }

  ghost predicate Packable(files: seq<File>) {
    && Fits(files)
    && (forall i :: 0 <= i < |files| ==> ReadableName(files[i].name))
    && forall i, j :: 0 <= i < j < |files| ==> files[i].name != files[j].name
  }

  /** The string read at `at` when its bytes are followed by a NUL. */
  lemma {:induction false} CStringIs(mem: seq<byte>, at: nat, name: seq<byte>)
    requires at + |name| < |mem| && mem[at..at + |name|] == name && mem[at + |name|] == 0
    requires forall k :: 0 <= k < |name| ==> name[k] != 0
    ensures CString(mem, at) == Some(name)
    decreases |name|
  {
    if name != [] {
      assert mem[at] == name[0];
      assert mem[at + 1..at + 1 + |name[1..]|] == name[1..];
      CStringIs(mem, at + 1, name[1..]);
      assert [name[0]] + name[1..] == name;
    }
  }

  /** What the reader sees of a mapped image. */
  ghost predicate Holds(root: seq<byte>, files: seq<File>)
    requires Fits(files)
  {
    |root| >= |ImageOf(files)| && root[..|ImageOf(files)|] == ImageOf(files)
  }

  lemma ImageParts(files: seq<File>)
    requires Fits(files)
    ensures var image, body := ImageOf(files), Table(files) + Merged(files);
      && |image| == HEADER_SIZE + |body|
      && image[..4] == Le32(|files|) && image[4..8] == Le32(ComputeChecksum(body)) && image[8..12] == Le32(|body|)
      && image[HEADER_SIZE..] == body
  {
    hide Table, Merged, ComputeChecksum, Le32;
  }

  ghost function OffsetOf(files: seq<File>, n: nat): nat
    requires n <= |files|
  {
    HEADER_SIZE + ENTRY_SIZE * |files| + |Merged(files[..n])|
  }

  /** The table entry of file `n` of a mapped image. */
  lemma EntryInImage(root: seq<byte>, files: seq<File>, n: nat)
    requires Fits(files) && Holds(root, files) && n < |files|
    ensures var at := HEADER_SIZE + ENTRY_SIZE * n;
      && at + ENTRY_SIZE < |root|
      && root[at..at + ENTRY_SIZE] == TableEntry(files[n].name, Low32(|files[n].data|), Low32(|Merged(files[..n])|))
  {
    hide TableEntry, Table, Merged, ImageOf, MAGIC;
    ImageParts(files);
    TableCovers(files, n);
    MergedCovers(files, n);
    var lo := ENTRY_SIZE * n;
    BodySlice(root, ImageOf(files), Table(files) + Merged(files), lo, lo + ENTRY_SIZE);
    assert (Table(files) + Merged(files))[lo..lo + ENTRY_SIZE] == Table(files)[lo..lo + ENTRY_SIZE];
  }

  /** The bytes of file `n` of a mapped image, behind their magic. */
  lemma FileInImage(root: seq<byte>, files: seq<File>, n: nat)
    requires Fits(files) && Holds(root, files) && n < |files|
    ensures var offset, size := OffsetOf(files, n), |files[n].data|;
      && offset + 2 + size <= |root| && offset + 2 + size < 0x1_0000_0010
      && root[offset..offset + 2] == MAGIC && root[offset + 2..offset + 2 + size] == files[n].data
  {
    hide TableEntry, Table, Merged, ImageOf;
    ImageParts(files);
    MergedCovers(files, n);
    var start, size := |Merged(files[..n])|, |files[n].data|;
    MergedInImage(root, files, start, start + 2);
    MergedInImage(root, files, start + 2, start + 2 + size);
  }

  lemma MergedInImage(root: seq<byte>, files: seq<File>, lo: nat, hi: nat)
    requires Fits(files) && Holds(root, files) && lo <= hi <= |Merged(files)|
    ensures var base := HEADER_SIZE + ENTRY_SIZE * |files|;
      base + hi <= |root| && root[base + lo..base + hi] == Merged(files)[lo..hi]
  {
    hide Table, Merged, ImageOf;
    ImageParts(files);
    MergedSlice(Table(files), Merged(files), lo, hi);
    BodySlice(root, ImageOf(files), Table(files) + Merged(files), ENTRY_SIZE * |files| + lo, ENTRY_SIZE * |files| + hi);
  }

  lemma BodySlice(root: seq<byte>, image: seq<byte>, body: seq<byte>, lo: nat, hi: nat)
    requires |image| == HEADER_SIZE + |body| <= |root| && root[..|image|] == image && image[HEADER_SIZE..] == body
    requires lo <= hi <= |body|
    ensures root[HEADER_SIZE + lo..HEADER_SIZE + hi] == body[lo..hi]
  {
    SliceOfSlice(root, 0, |image|, HEADER_SIZE + lo, HEADER_SIZE + hi);
    SliceOfSlice(image, HEADER_SIZE, |image|, lo, hi);
  }

  lemma MergedSlice(table: seq<byte>, merged: seq<byte>, lo: nat, hi: nat)
    requires lo <= hi <= |merged|
    ensures (table + merged)[|table| + lo..|table| + hi] == merged[lo..hi]
  {
    var both := table + merged;
    assert both[|table|..|both|] == merged;
    SliceOfSlice(both, |table|, |both|, lo, hi);
  }

  /** The reader decodes an entry to the name, the size and the absolute offset the packer meant. */
  lemma EntryReadsBack(root: seq<byte>, at: nat, name: seq<byte>, size: uint32, offset: uint32)
    requires at + ENTRY_SIZE < |root| && root[at..at + ENTRY_SIZE] == TableEntry(name, size, offset)
    requires |name| < NAME_SIZE && forall k :: 0 <= k < |name| ==> name[k] != 0
    ensures CString(root, at) == Some(name)
    ensures U32(root[at + 32..at + 36]) == size && U32(root[at + 36..at + 40]) == offset
  {
    hide Le32, U32, CString, TableEntry, NameField;
    var entry := root[at..at + ENTRY_SIZE];
    EntryFields(name, size, offset);
    NameFieldHolds(name);
    U32OfLe32(size);
    U32OfLe32(offset);
    SliceOfSlice(root, at, at + ENTRY_SIZE, 32, 36);
    SliceOfSlice(root, at, at + ENTRY_SIZE, 36, 40);
    SliceOfSlice(root, at, at + ENTRY_SIZE, 0, |name|);
    assert entry[..|name|] == entry[..NAME_SIZE][..|name|];
    assert root[at + |name|] == entry[..NAME_SIZE][|name|];
    assert root[at..at + |name|] == name;
    assert root[at + 32..at + 36] == Le32(size) && root[at + 36..at + 40] == Le32(offset);
    CStringIs(root, at, name);
  }

  lemma EntryFields(name: seq<byte>, size: uint32, offset: uint32)
    ensures var entry := TableEntry(name, size, offset);
      entry[..NAME_SIZE] == NameField(name) && entry[32..36] == Le32(size) && entry[36..40] == Le32(offset)
  {
    hide NameField, Le32;
  }

  lemma NameFieldHolds(name: seq<byte>)
    ensures |name| < NAME_SIZE ==> NameField(name)[..|name|] == name && NameField(name)[|name|] == 0
    ensures |name| == NAME_SIZE ==> NameField(name) == name
  {
  }

  ghost function PackedAsset(files: seq<File>, n: nat): Asset
    requires n < |files|
  {
    Asset(Low32(|files[n].data|), Low32(OffsetOf(files, n)))
  }

  /** Where the index must point. */
  ghost predicate IndexedAt(assets: map<seq<byte>, Asset>, files: seq<File>, n: nat)
    requires n < |files|
  {
    && files[n].name in assets
    && assets[files[n].name] == PackedAsset(files, n)
  }

  /** The index of the first `n` files: those names, and nothing else. */
  ghost predicate ExactIndex(assets: map<seq<byte>, Asset>, files: seq<File>, n: nat)
    requires n <= |files|
  {
    && (forall i: nat :: i < n ==> IndexedAt(assets, files, i))
    && (forall name :: name in assets ==> exists i: nat :: i < n && files[i].name == name)
  }

  lemma {:induction false} IndexIsExact(root: seq<byte>, files: seq<File>, stored: uint32, n: nat)
    requires Packable(files) && Holds(root, files) && n <= |files| == stored
    ensures var index := IndexUpTo(root, stored, n); index.Some? && ExactIndex(index.value, files, n)
  {
    hide ExactIndex, Holds, Packable, IndexUpTo;
    if n == 0 {
      NothingIndexed(root, files, stored);
    } else {
      IndexIsExact(root, files, stored, n - 1);
      IndexStep(root, files, stored, n);
      IndexExtends(IndexUpTo(root, stored, n - 1).value, files, n);
    }
  }

  lemma NothingIndexed(root: seq<byte>, files: seq<File>, stored: uint32)
    ensures IndexUpTo(root, stored, 0) == Some(map[]) && ExactIndex(map[], files, 0)
  {
  }

  lemma IndexStep(root: seq<byte>, files: seq<File>, stored: uint32, n: nat)
    requires Packable(files) && Holds(root, files) && 0 < n <= |files| == stored
    requires IndexUpTo(root, stored, n - 1).Some?
    ensures IndexUpTo(root, stored, n) ==
            Some(IndexUpTo(root, stored, n - 1).value[files[n - 1].name := PackedAsset(files, n - 1)])
  {
    hide TableEntry, Holds, Merged, CString, U32;
    var at := HEADER_SIZE + ENTRY_SIZE * (n - 1);
    EntryInImage(root, files, n - 1);
    EntryReadsBack(root, at, files[n - 1].name, Low32(|files[n - 1].data|), Low32(|Merged(files[..n - 1])|));
    OffsetIsLow(files, n - 1);
  }

  lemma OffsetIsLow(files: seq<File>, n: nat)
    requires Fits(files) && n < |files|
    ensures Low32(HEADER_SIZE + ENTRY_SIZE * |files| + Low32(|Merged(files[..n])|)) == Low32(OffsetOf(files, n))
  {
    hide Merged;
    MergedCovers(files, n);
  }

  lemma IndexExtends(earlier: map<seq<byte>, Asset>, files: seq<File>, n: nat)
    requires Packable(files) && 0 < n <= |files|
    requires ExactIndex(earlier, files, n - 1)
    ensures ExactIndex(earlier[files[n - 1].name := PackedAsset(files, n - 1)], files, n)
  {
    hide OffsetOf, Fits, PackedAsset;
    var index := earlier[files[n - 1].name := PackedAsset(files, n - 1)];
    forall i: nat | i < n ensures IndexedAt(index, files, i) {
      if i < n - 1 {
        assert IndexedAt(earlier, files, i);
      }
    }
  }

  /** The round trip: an image of at least one file is accepted and serves exactly its files; the
      image of no files is refused, because a stored length of zero is. */
  lemma PackedImageIsServed(files: seq<File>, flash: seq<byte>, freePages: nat)
    requires Packable(files) && ValidSize(|flash|)
    requires |ImageOf(files)| <= |flash| && flash[..|ImageOf(files)|] == ImageOf(files)
    requires MapSize(StoredLen(flash), |flash|) <= StorageSize(freePages)
    ensures files == [] ==> Outcome(flash, freePages) == Rejected
    ensures files != [] ==>
              && Outcome(flash, freePages) == Ready
              && IndexUpTo(Mapped(flash), |files|, |files|).Some?
              && U32(flash[..4]) == |files|
    ensures files != [] ==>
              var index := IndexUpTo(Mapped(flash), |files|, |files|).value;
              && (forall i :: 0 <= i < |files| ==> LookupIn(index, Mapped(flash), files[i].name) == Found(files[i].data))
              && (forall name :: (forall i :: 0 <= i < |files| ==> files[i].name != name) ==>
                    LookupIn(index, Mapped(flash), name) == NotFound)
  {
    hide Table, Merged, Le32, U32, ComputeChecksum;
    HeaderReadsBack(files, flash);
    if files != [] {
      var root := Mapped(flash);
      MapCoversImage(StoredLen(flash), |flash|);
      assert Holds(root, files);
      IndexIsExact(root, files, |files|, |files|);
      forall i | 0 <= i < |files|
        ensures LookupIn(IndexUpTo(root, |files|, |files|).value, root, files[i].name) == Found(files[i].data)
      {
        LookupReadsFile(root, files, i);
      }
    }
  }

  lemma HeaderReadsBack(files: seq<File>, flash: seq<byte>)
    requires Fits(files) && |ImageOf(files)| <= |flash| && flash[..|ImageOf(files)|] == ImageOf(files)
    ensures |flash| >= HEADER_SIZE
    ensures var body := Table(files) + Merged(files);
      && U32(flash[..4]) == |files| && StoredLen(flash) == |body| == |ImageOf(files)| - HEADER_SIZE
      && U32(flash[4..8]) == ComputeChecksum(body) && flash[HEADER_SIZE..HEADER_SIZE + |body|] == body
      && (|body| == 0 <==> files == [])
  {
    hide Table, Merged, Le32, U32, ComputeChecksum, ImageOf;
    var body, image := Table(files) + Merged(files), ImageOf(files);
    ImageParts(files);
    U32OfLe32(|files|);
    ChecksumIsSmall(body);
    U32OfLe32(ComputeChecksum(body));
    U32OfLe32(|body|);
    assert flash[..4] == image[..4] && flash[4..8] == image[4..8] && flash[8..12] == image[8..12];
    assert flash[HEADER_SIZE..HEADER_SIZE + |body|] == image[HEADER_SIZE..];
    NothingMerged();
  }

  lemma ChecksumIsSmall(body: seq<byte>)
    ensures 0 <= ComputeChecksum(body) < 0x1_0000
  {
  }

  lemma NothingMerged()
    ensures Merged([]) == []
  {
  }

  lemma LookupReadsFile(root: seq<byte>, files: seq<File>, i: nat)
    requires Packable(files) && Holds(root, files) && i < |files| && |root| < 0x1_0000_0000
    ensures IndexUpTo(root, |files|, |files|).Some?
    ensures LookupIn(IndexUpTo(root, |files|, |files|).value, root, files[i].name) == Found(files[i].data)
  {
    hide IndexUpTo, TableEntry, Merged, Holds;
    IndexIsExact(root, files, |files|, |files|);
    var index := IndexUpTo(root, |files|, |files|).value;
    assert IndexedAt(index, files, i);
    ServedAt(index, root, files, i);
  }

  lemma ServedAt(index: map<seq<byte>, Asset>, root: seq<byte>, files: seq<File>, i: nat)
    requires Fits(files) && Holds(root, files) && i < |files| && |root| < 0x1_0000_0000
    requires IndexedAt(index, files, i)
    ensures LookupIn(index, root, files[i].name) == Found(files[i].data)
  {
    hide TableEntry, Merged, Holds;
    FileInImage(root, files, i);
  }

  /** A name of all 32 bytes leaves no room for the NUL: it reads back just when the first byte of
      the size field happens to end it. */
  lemma FullLengthNameReadsBack(root: seq<byte>, at: nat, name: seq<byte>, size: uint32, offset: uint32)
    requires at + ENTRY_SIZE < |root| && root[at..at + ENTRY_SIZE] == TableEntry(name, size, offset)
    requires |name| == NAME_SIZE && forall k :: 0 <= k < |name| ==> name[k] != 0
    ensures CString(root, at) == Some(name) <==> size % 0x100 == 0
  {
    hide CString, TableEntry, NameField;
    var entry := root[at..at + ENTRY_SIZE];
    EntryFields(name, size, offset);
    NameFieldHolds(name);
    SliceOfSlice(root, at, at + ENTRY_SIZE, 0, NAME_SIZE);
    assert root[at + |name|] == entry[32..36][0];
    if size % 0x100 == 0 {
      CStringIs(root, at, name);
    } else {
      CStringLonger(root, at, name);
    }
  }

  lemma {:induction false} CStringLonger(mem: seq<byte>, at: nat, name: seq<byte>)
    requires at + |name| < |mem| && mem[at..at + |name|] == name && mem[at + |name|] != 0
    ensures CString(mem, at) != Some(name)
    decreases |name|
  {
    if name != [] && mem[at] != 0 {
      assert mem[at] == name[0];
      assert mem[at + 1..at + 1 + |name[1..]|] == name[1..];
      CStringLonger(mem, at + 1, name[1..]);
      var rest := CString(mem, at + 1);
      assert rest.Some? ==> ([name[0]] + rest.value)[1..] == rest.value;
    }
  }

  // ---- what the checksum detects ----

  /** One changed byte anywhere in the body is always detected: the image is refused. */
  lemma OneChangedByteIsRefused(flash: seq<byte>, freePages: nat, i: nat, value: byte)
    requires ValidSize(|flash|) && LengthAccepted(flash) && Outcome(flash, freePages) != Rejected
    requires HEADER_SIZE <= i < HEADER_SIZE + StoredLen(flash) && value != flash[i]
    ensures Outcome(flash[i := value], freePages) == Rejected
  {
    hide U32, IndexUpTo, MapSize, StorageSize;
    var changed, len := flash[i := value], StoredLen(flash);
    assert changed[4..8] == flash[4..8] && changed[8..12] == flash[8..12];
    var body := flash[HEADER_SIZE..HEADER_SIZE + len];
    assert changed[HEADER_SIZE..HEADER_SIZE + len] == body[i - HEADER_SIZE := value];
    SumUpdate(body, i - HEADER_SIZE, value);
    NearSumsDiffer(Sum(body), Sum(body[i - HEADER_SIZE := value]));
  }

  lemma NearSumsDiffer(a: nat, b: nat)
    requires a != b && -0x100 < a - b < 0x100
    ensures a % 0x1_0000 != b % 0x1_0000
  {
  }

  /** Two exchanged bytes never are. */
  lemma ExchangedBytesPass(data: seq<byte>, i: nat, j: nat)
    requires i < |data| && j < |data|
    ensures ComputeChecksum(data[i := data[j]][j := data[i]]) == ComputeChecksum(data)
  {
    SumUpdate(data, i, data[j]);
    SumUpdate(data[i := data[j]], j, data[i]);
  }


  /** What is mapped: the image rounded up to whole 64 KiB pages, or the whole partition if that is
      shorter. */
  lemma MappingIsWholePages(flash: seq<byte>)
    requires ValidSize(|flash|) && LengthAccepted(flash)
    ensures var used, mapped := 12 + StoredLen(flash), |Mapped(flash)|;
      used <= mapped < used + 65_536 && (mapped % 65_536 == 0 || (mapped == |flash| && |flash| % 65_536 != 0))
  {
    hide StoredLen;
  }

  /** An image whose length and checksum are right is refused exactly when it needs more free pages than
      there are. */
  lemma PagesDecide(flash: seq<byte>, freePages: nat)
    requires ValidSize(|flash|) && LengthAccepted(flash) && freePages < 65_536
    requires Sum(flash[12..12 + StoredLen(flash)]) % 65_536 == U32(flash[4..8])
    ensures Outcome(flash, freePages) == Rejected <==> 65_536 * freePages < |Mapped(flash)|
  {
    hide StoredLen, U32, Sum, IndexUpTo;
  }
}
