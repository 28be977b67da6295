/** The assets container: the Python packer that writes it and the firmware reader that maps,
checks and indexes it.

A file name is its byte string.  `char` is unsigned, and the mapped region is a byte sequence: a read
outside it, which the firmware does not guard against, is the outcome `Fault`.
*/
module AssetContainer {
  import opened Basics
  import opened Bytes
  import opened Sequences

  const HEADER_SIZE: nat := 12
  const ENTRY_SIZE: nat := 44
  const NAME_SIZE: nat := 32
  const MMU_PAGE: nat := 0x1_0000
  const MAGIC: seq<byte> := [0x5A, 0x5A]
  /** "config.json" */
  const SKIPPED: seq<byte> := [99, 111, 110, 102, 105, 103, 46, 106, 115, 111, 110]

  datatype File = File(name: seq<byte>, data: seq<byte>)

  datatype DirEntry = DirEntry(file: File, isFile: bool)

  // ---- the packer ----

  /** Either the image, or Python's overflow error from a length that does not fit four bytes. */
  datatype Packed = Image(bytes: seq<byte>) | OverflowError

  ghost function Kept(listing: seq<DirEntry>): seq<File> {
    if listing == [] then []
    else
      var last := listing[|listing| - 1];
      Kept(listing[..|listing| - 1]) + if last.isFile && last.file.name != SKIPPED then [last.file] else []
  }

  ghost function Merged(files: seq<File>): seq<byte> {
    if files == [] then [] else Merged(files[..|files| - 1]) + (MAGIC + files[|files| - 1].data)
  }

  /** The name in its field: padded with NULs, cut at 32 bytes. */
  function NameField(name: seq<byte>): (field: seq<byte>)
    ensures |field| == NAME_SIZE
  {
    if |name| >= NAME_SIZE then name[..NAME_SIZE] else name + seq(NAME_SIZE - |name|, _ => 0)
  }

  function TableEntry(name: seq<byte>, size: uint32, offset: uint32): (entry: seq<byte>)
    ensures |entry| == ENTRY_SIZE
  {
    NameField(name) + Le32(size) + Le32(offset) + Le16(0) + Le16(0)
  }

  /** Everything `to_bytes(4)` is asked to write fits. */
  ghost predicate Fits(files: seq<File>) {
    ENTRY_SIZE * |files| + |Merged(files)| < 0x1_0000_0000
  }

  function Low32(n: nat): uint32 {
    n % 0x1_0000_0000
  }

  ghost function Table(files: seq<File>): (table: seq<byte>)
    ensures |table| == ENTRY_SIZE * |files|
  {
    if files == [] then []
    else
      var prefix, last := files[..|files| - 1], files[|files| - 1];
      Table(prefix) + TableEntry(last.name, Low32(|last.data|), Low32(|Merged(prefix)|))
  }

  function ComputeChecksum(data: seq<byte>): nat {
    Sum(data) % 0x1_0000
  }

  ghost function ImageOf(files: seq<File>): seq<byte>
    requires Fits(files)
  {
    var body := Table(files) + Merged(files);
    Le32(|files|) + Le32(ComputeChecksum(body)) + Le32(|body|) + body
  }

  /** The first loop of the packer: the merged data, and a record of where each file went. */
  method MergeFiles(listing: seq<DirEntry>) returns (mergedData: seq<byte>, fileInfoList: seq<FileInfo>)
    ensures mergedData == Merged(Kept(listing)) && Describes(fileInfoList, Kept(listing))
  {
    mergedData, fileInfoList := [], [];
    for n := 0 to |listing|
      invariant mergedData == Merged(Kept(listing[..n])) && Describes(fileInfoList, Kept(listing[..n]))
    {
      hide Describes, SKIPPED;
      ghost var files := Kept(listing[..n]);
      assert listing[..n + 1][..n] == listing[..n];
      if listing[n].file.name != SKIPPED && listing[n].isFile {
        var file := listing[n].file;
        DescribesAppend(fileInfoList, files, file);
        MergedAppend(files, file);
        fileInfoList := fileInfoList + [FileInfo(file.name, |mergedData|, |file.data|)];
        mergedData := mergedData + MAGIC + file.data;
      } else {
        assert files + [] == files;
      }
    }
    assert listing[..|listing|] == listing;
  }

  lemma MergedAppend(files: seq<File>, file: File)
    ensures Merged(files + [file]) == Merged(files) + MAGIC + file.data
  {
    assert (files + [file])[..|files|] == files;
    Assoc(Merged(files), MAGIC, file.data);
  }

  /** The second loop: one table entry per file, unless a number does not fit. */
  method BuildTable(infos: seq<FileInfo>, ghost files: seq<File>) returns (ok: bool, table: seq<byte>)
    requires Describes(infos, files)
    ensures ok ==> table == Table(files)
    ensures !ok ==> !Fits(files)
  {
    hide TableEntry, Merged, Table;
    ok, table := true, [];
    EmptyTable();
    assert files[..0] == [];
    for n := 0 to |infos|
      invariant ok && table == Table(files[..n])
    {
      assert DescribesAt(infos, files, n);
      var info := infos[n];
      if info.size >= 0x1_0000_0000 || info.offset >= 0x1_0000_0000 {
        MergedCovers(files, n);
        return false, [];
      }
      TableAppend(files, n);
      table := table + TableEntry(info.name, info.size, info.offset);
    }
    assert files[..|files|] == files;
  }

  lemma EmptyTable()
    ensures Table([]) == []
  {
  }

  lemma TableAppend(files: seq<File>, n: nat)
    requires n < |files|
    ensures Table(files[..n + 1]) ==
            Table(files[..n]) + TableEntry(files[n].name, Low32(|files[n].data|), Low32(|Merged(files[..n])|))
  {
    hide TableEntry;
    assert files[..n + 1][..n] == files[..n];
  }

  method PackAssetsSimple(listing: seq<DirEntry>) returns (r: Packed)
    ensures r.Image? <==> Fits(Kept(listing))
    ensures r.Image? ==> r.bytes == ImageOf(Kept(listing))
  {
    var mergedData, fileInfoList := MergeFiles(listing);
    var ok, mmapTable := BuildTable(fileInfoList, Kept(listing));
    if !ok {
      return OverflowError;
    }
    var combined := mmapTable + mergedData;
    if |combined| >= 0x1_0000_0000 {
      return OverflowError;
    }
    r := Image(Le32(|fileInfoList|) + Le32(ComputeChecksum(combined)) + Le32(|combined|) + combined);
  }

  datatype FileInfo = FileInfo(name: seq<byte>, offset: nat, size: nat)

  ghost predicate DescribesAt(infos: seq<FileInfo>, files: seq<File>, n: nat)
    requires n < |infos| == |files|
  {
    infos[n] == FileInfo(files[n].name, |Merged(files[..n])|, |files[n].data|)
  }

  ghost predicate Describes(infos: seq<FileInfo>, files: seq<File>) {
    |infos| == |files| && forall n: nat :: n < |infos| ==> DescribesAt(infos, files, n)
  }

  lemma DescribesAppend(infos: seq<FileInfo>, files: seq<File>, file: File)
    requires Describes(infos, files)
    ensures Describes(infos + [FileInfo(file.name, |Merged(files)|, |file.data|)], files + [file])
  {
    var infos', files' := infos + [FileInfo(file.name, |Merged(files)|, |file.data|)], files + [file];
    forall n: nat | n < |infos'| ensures DescribesAt(infos', files', n) {
      if n < |infos| {
        assert DescribesAt(infos, files, n);
        assert files'[..n] == files[..n];
      } else {
        assert files'[..n] == files;
      }
    }
  }

  /** File `n` with its magic sits in the merged data right after the files before it. */
  lemma {:induction false} MergedCovers(files: seq<File>, n: nat)
    requires n < |files|
    ensures var offset, size := |Merged(files[..n])|, |files[n].data|;
      && offset + 2 + size <= |Merged(files)|
      && Merged(files)[offset..offset + 2] == MAGIC
      && Merged(files)[offset + 2..offset + 2 + size] == files[n].data
    decreases |files|
  {
    var prefix := files[..|files| - 1];
    if n < |files| - 1 {
      MergedCovers(prefix, n);
      assert prefix[..n] == files[..n];
    }
  }

  /** Entry `n` of the table. */
  lemma {:induction false} TableCovers(files: seq<File>, n: nat)
    requires n < |files|
    ensures Table(files)[ENTRY_SIZE * n..ENTRY_SIZE * n + ENTRY_SIZE] ==
            TableEntry(files[n].name, Low32(|files[n].data|), Low32(|Merged(files[..n])|))
    decreases |files|
  {
    hide TableEntry;
    var prefix := files[..|files| - 1];
    if n < |files| - 1 {
      TableCovers(prefix, n);
      assert prefix[..n] == files[..n];
      assert Table(files)[ENTRY_SIZE * n..ENTRY_SIZE * n + ENTRY_SIZE] ==
             Table(prefix)[ENTRY_SIZE * n..ENTRY_SIZE * n + ENTRY_SIZE];
    }
  }
}
