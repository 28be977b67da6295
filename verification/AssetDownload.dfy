/** Replacing the assets image on NOR flash, sector by sector.

Flash is a byte sequence.  Erasing sets a 4096-byte sector to 0xFF and programming can only clear
bits.  Every erase and every programmed byte is one entry of the operation log, so the states a power
cut can leave behind are the replays of the log's prefixes.
*/
module AssetDownload {
  import opened Basics
  import opened Bytes
  import opened Sequences

  import opened AssetContainer
  import opened AssetReader

  const SECTOR_SIZE: nat := 0x1000

  datatype FlashOp = EraseSector(sector: nat) | Program(address: nat, value: byte)

  /** The bitwise and of the low `bits` bits. */
  function AndBits(a: nat, b: nat, bits: nat): (r: nat)
    ensures r <= b
  {
    if bits == 0 then 0
    else 2 * AndBits(a / 2, b / 2, bits - 1) + (if a % 2 == 1 && b % 2 == 1 then 1 else 0)
  }

  /** Programming clears bits and never sets them. */
  function ProgramBits(cell: byte, value: byte): byte {
    AndBits(cell, value, 8)
  }

  predicate Bit(n: nat, k: nat) {
    if k == 0 then n % 2 == 1 else Bit(n / 2, k - 1)
  }

  /** A bit is left set exactly when it was set in both. */
  lemma {:induction false} AndBitsAt(a: nat, b: nat, bits: nat, k: nat)
    requires k < bits
    ensures Bit(AndBits(a, b, bits), k) <==> Bit(a, k) && Bit(b, k)
  {
    if k > 0 {
      AndBitsAt(a / 2, b / 2, bits - 1, k - 1);
      assert AndBits(a, b, bits) / 2 == AndBits(a / 2, b / 2, bits - 1);
    }
  }

  lemma ProgramBitsAt(cell: byte, value: byte, k: nat)
    requires k < 8
    ensures Bit(ProgramBits(cell, value), k) <==> Bit(cell, k) && Bit(value, k)
  {
    AndBitsAt(cell, value, 8, k);
  }

  /** The bits decide the byte. */
  lemma BitsDecide(a: byte, b: byte)
    requires forall k: nat :: k < 8 ==> (Bit(a, k) <==> Bit(b, k))
    ensures a == b
  {
    assert TwoTo(4) == 16;
    assert TwoTo(8) == 256;
    SameBits(a, b, 8);
  }

  lemma {:induction false} SameBits(a: nat, b: nat, bits: nat)
    requires a < TwoTo(bits) && b < TwoTo(bits) && forall k: nat :: k < bits ==> (Bit(a, k) <==> Bit(b, k))
    ensures a == b
  {
    if bits > 0 {
      assert Bit(a, 0) <==> Bit(b, 0);
      forall k: nat | k < bits - 1 ensures Bit(a / 2, k) <==> Bit(b / 2, k) {
        assert Bit(a, k + 1) <==> Bit(b, k + 1);
      }
      SameBits(a / 2, b / 2, bits - 1);
    }
  }

  ghost function TwoTo(bits: nat): nat {
    if bits == 0 then 1 else 2 * TwoTo(bits - 1)
  }

  lemma {:induction false} OnesTakeAnyValue(value: nat, bits: nat)
    requires value < TwoTo(bits)
    ensures AndBits(TwoTo(bits) - 1, value, bits) == value
  {
    if bits > 0 {
      var half := TwoTo(bits - 1);
      assert TwoTo(bits) == 2 * half;
      hide TwoTo;
      assert (2 * half - 1) % 2 == 1 && (2 * half - 1) / 2 == half - 1;
      OnesTakeAnyValue(value / 2, bits - 1);
    }
  }

  lemma ErasedTakesAnyValue(value: byte)
    ensures ProgramBits(0xFF, value) == value
  {
    assert TwoTo(4) == 16;
    assert TwoTo(8) == 256;
    OnesTakeAnyValue(value, 8);
  }

  ghost function Apply(cells: seq<byte>, op: FlashOp): (after: seq<byte>)
    ensures |after| == |cells|
  {
    match op
    case EraseSector(sector) =>
      seq(|cells|, i requires 0 <= i < |cells| =>
        if SECTOR_SIZE * sector <= i < SECTOR_SIZE * sector + SECTOR_SIZE then 0xFF else cells[i])
    case Program(address, value) =>
      if address < |cells| then cells[address := ProgramBits(cells[address], value)] else cells
  }

  ghost function Replay(cells: seq<byte>, log: seq<FlashOp>): (after: seq<byte>)
    ensures |after| == |cells|
  {
    if log == [] then cells else Apply(Replay(cells, log[..|log| - 1]), log[|log| - 1])
  }

  ghost function Programs(address: nat, data: seq<byte>): (ops: seq<FlashOp>)
    ensures |ops| == |data|
  {
    seq(|data|, i requires 0 <= i < |data| => Program(address + i, data[i]))
  }

  /** The assets partition.  After `budget` more operations the device fails every request. */
  class Partition {
    var cells: seq<byte>
    var budget: nat
    ghost var initial: seq<byte>
    ghost var log: seq<FlashOp>

    ghost predicate Valid()
      reads this
    {
      cells == Replay(initial, log) && |cells| == |initial|
    }

    /** Starts the log of one download. */
    ghost method StartLog()
      modifies this`initial, this`log
      ensures Valid() && initial == cells && log == []
    {
      initial, log := cells, [];
    }

    method EraseRange(sector: nat) returns (ok: bool)
      requires Valid() && SECTOR_SIZE * sector + SECTOR_SIZE <= |cells|
      modifies this
      ensures Valid() && initial == old(initial)
      ensures ok == (old(budget) > 0)
      ensures ok ==> log == old(log) + [EraseSector(sector)] && budget == old(budget) - 1
      ensures !ok ==> unchanged(this)
    {
      if budget == 0 {
        return false;
      }
      ghost var after := Apply(cells, EraseSector(sector));
      var start := SECTOR_SIZE * sector;
      cells := cells[..start] + seq(SECTOR_SIZE, _ => 0xFF) + cells[start + SECTOR_SIZE..];
      assert cells == after;
      budget := budget - 1;
      log := log + [EraseSector(sector)];
      assert log[..|log| - 1] == old(log);
      ok := true;
    }

    /** Programs byte by byte; a failure leaves a prefix behind. */
    method Write(address: nat, data: seq<byte>) returns (ok: bool)
      requires Valid() && address + |data| <= |cells|
      modifies this
      ensures Valid() && initial == old(initial)
      ensures ok == (old(budget) >= |data|)
      ensures ok ==> log == old(log) + Programs(address, data) && budget == old(budget) - |data|
      ensures !ok ==> log == old(log) + Programs(address, data[..old(budget)]) && budget == 0
    {
      var n := 0;
      while n < |data|
        invariant 0 <= n <= |data| && n <= old(budget) && budget == old(budget) - n
        invariant Valid() && initial == old(initial) && |cells| == |old(cells)|
        invariant log == old(log) + Programs(address, data[..n])
      {
        if budget == 0 {
          return false;
        }
        cells := cells[address + n := ProgramBits(cells[address + n], data[n])];
        budget := budget - 1;
        ghost var earlier := log;
        log := log + [Program(address + n, data[n])];
        assert log[..|log| - 1] == earlier;
        ProgramsAppend(address, data, n);
        n := n + 1;
      }
      assert data[..n] == data;
      ok := true;
    }
  }

  lemma ProgramsAppend(address: nat, data: seq<byte>, n: nat)
    requires n < |data|
    ensures Programs(address, data[..n + 1]) == Programs(address, data[..n]) + [Program(address + n, data[n])]
  {
  }

  // ---- the discipline of a download in progress ----

  /** Operation `i` respects the flash: a sector is erased before any of its bytes is programmed and
      never afterwards, and no byte is programmed twice. */
  ghost predicate DisciplinedAt(log: seq<FlashOp>, i: int)
    requires 0 <= i < |log|
  {
    match log[i]
    case EraseSector(sector) =>
      forall j :: 0 <= j < i && log[j].Program? ==> log[j].address / SECTOR_SIZE != sector
    case Program(address, _) =>
      && EraseSector(address / SECTOR_SIZE) in log[..i]
      && forall j :: 0 <= j < i && log[j].Program? ==> log[j].address != address
  }

  ghost predicate Disciplined(log: seq<FlashOp>) {
    forall i :: 0 <= i < |log| ==> DisciplinedAt(log, i)
  }

  /** The log of the first `sectors` erases and of `payload`, which starts behind the header. */
  ghost predicate PayloadLog(log: seq<FlashOp>, sectors: nat, payload: seq<byte>) {
    && |log| == sectors + |payload|
    && (sectors > 0 ==> log[0] == EraseSector(0))
    && (sectors == 0 ==> payload == [])
    && (forall i :: 0 <= i < |log| && log[i].EraseSector? ==> log[i].sector < sectors)
    && (forall i :: 0 <= i < |log| && log[i].Program? ==> HEADER_SIZE <= log[i].address < HEADER_SIZE + |payload|)
    && (forall s: nat :: s < sectors ==> EraseSector(s) in log)
  }

  /** The flash in between: payload as received, the rest of the erased sectors blank, the rest old. */
  ghost function CellAt(initial: seq<byte>, sectors: nat, payload: seq<byte>, i: nat): byte
    requires i < |initial|
  {
    if i >= SECTOR_SIZE * sectors then initial[i]
    else if HEADER_SIZE <= i < HEADER_SIZE + |payload| then payload[i - HEADER_SIZE]
    else 0xFF
  }

  ghost predicate Progress(initial: seq<byte>, log: seq<FlashOp>, sectors: nat, payload: seq<byte>) {
    && SECTOR_SIZE * sectors <= |initial|
    && (payload != [] ==> HEADER_SIZE + |payload| <= SECTOR_SIZE * sectors)
    && Disciplined(log) && PayloadLog(log, sectors, payload)
    && forall i: nat :: i < |initial| ==> Replay(initial, log)[i] == CellAt(initial, sectors, payload, i)
  }

  lemma DisciplinedAppend(log: seq<FlashOp>, op: FlashOp)
    requires Disciplined(log)
    requires op.EraseSector? ==> forall j :: 0 <= j < |log| && log[j].Program? ==> log[j].address / SECTOR_SIZE != op.sector
    requires op.Program? ==>
      EraseSector(op.address / SECTOR_SIZE) in log && forall j :: 0 <= j < |log| && log[j].Program? ==> log[j].address != op.address
    ensures Disciplined(log + [op])
  {
    var longer := log + [op];
    forall i | 0 <= i < |longer| ensures DisciplinedAt(longer, i) {
      if i < |log| {
        assert DisciplinedAt(log, i);
        assert longer[..i] == log[..i];
      } else {
        assert longer[..i] == log;
      }
    }
  }

  lemma ReplayAppend(initial: seq<byte>, log: seq<FlashOp>, op: FlashOp)
    ensures Replay(initial, log + [op]) == Apply(Replay(initial, log), op)
  {
    assert (log + [op])[..|log|] == log;
  }

  lemma EraseStep(initial: seq<byte>, log: seq<FlashOp>, sectors: nat, payload: seq<byte>)
    requires Progress(initial, log, sectors, payload) && SECTOR_SIZE * sectors + SECTOR_SIZE <= |initial|
    ensures Progress(initial, log + [EraseSector(sectors)], sectors + 1, payload)
  {
    hide Disciplined, Replay;
    DisciplinedAppend(log, EraseSector(sectors));
    ReplayAppend(initial, log, EraseSector(sectors));
  }

  lemma ProgramStep(initial: seq<byte>, log: seq<FlashOp>, sectors: nat, payload: seq<byte>, value: byte)
    requires Progress(initial, log, sectors, payload) && HEADER_SIZE + |payload| < SECTOR_SIZE * sectors
    ensures Progress(initial, log + [Program(HEADER_SIZE + |payload|, value)], sectors, payload + [value])
  {
    hide Disciplined, Replay, ProgramBits;
    var op := Program(HEADER_SIZE + |payload|, value);
    DisciplinedAppend(log, op);
    ReplayAppend(initial, log, op);
    ErasedTakesAnyValue(value);
  }

  lemma {:induction false} ProgramSteps(initial: seq<byte>, log: seq<FlashOp>, sectors: nat, payload: seq<byte>, data: seq<byte>)
    requires Progress(initial, log, sectors, payload)
    requires data != [] ==> HEADER_SIZE + |payload| + |data| <= SECTOR_SIZE * sectors
    ensures Progress(initial, log + Programs(HEADER_SIZE + |payload|, data), sectors, payload + data)
    decreases |data|
  {
    hide Progress;
    if data == [] {
      assert log + Programs(HEADER_SIZE + |payload|, data) == log && payload + data == payload;
    } else {
      var n := |data| - 1;
      ProgramSteps(initial, log, sectors, payload, data[..n]);
      ProgramsAppend(HEADER_SIZE + |payload|, data, n);
      assert data[..n + 1] == data;
      Assoc(log, Programs(HEADER_SIZE + |payload|, data[..n]), [Program(HEADER_SIZE + |payload| + n, data[n])]);
      ProgramStep(initial, log + Programs(HEADER_SIZE + |payload|, data[..n]), sectors, payload + data[..n], data[n]);
      assert payload + data == (payload + data[..n]) + [data[n]];
    }
  }

  // ---- the download ----

  /** What the HTTP client delivers: reads of at most one sector, then the end or an error. */
  datatype Body = Body(chunks: seq<seq<byte>>, completes: bool)
  {
    ghost predicate Valid() {
      forall n :: 0 <= n < |chunks| ==> 0 < |chunks[n]| <= SECTOR_SIZE
    }

    ghost function Bytes(): seq<byte> {
      Concat(chunks)
    }
  }

  ghost function SectorsFor(payload: nat): nat {
    if payload == 0 then 0 else (HEADER_SIZE + payload + SECTOR_SIZE - 1) / SECTOR_SIZE
  }

  /** The bytes behind the header. */
  ghost function PayloadOf(seen: seq<byte>): seq<byte> {
    if |seen| <= HEADER_SIZE then [] else seen[HEADER_SIZE..]
  }

  class Assets {
    const partition: Partition
    const strategy: LvglStrategy

    constructor (partition: Partition)
      ensures this.partition == partition && fresh(strategy)
    {
      this.partition := partition;
      strategy := new LvglStrategy();
    }

    /** The erase loop in front of one payload write. */
    method EraseFor(currentSector: nat, neededSectors: nat, ghost payload: seq<byte>) returns (ok: bool, sectors: nat)
      requires partition.Valid() && Progress(partition.initial, partition.log, currentSector, payload)
      requires currentSector <= neededSectors
      modifies partition
      ensures partition.Valid() && partition.initial == old(partition.initial)
      ensures Progress(partition.initial, partition.log, sectors, payload)
      ensures ok ==> sectors == neededSectors && partition.budget == old(partition.budget) - (neededSectors - currentSector)
      ensures !ok ==> old(partition.budget) < neededSectors - currentSector ||
                      SECTOR_SIZE * neededSectors > |partition.initial|
    {
      hide Progress;
      sectors := currentSector;
      while sectors < neededSectors
        invariant currentSector <= sectors <= neededSectors
        invariant partition.Valid() && partition.initial == old(partition.initial)
        invariant Progress(partition.initial, partition.log, sectors, payload)
        invariant partition.budget == old(partition.budget) - (sectors - currentSector)
      {
        if SECTOR_SIZE * sectors + SECTOR_SIZE > |partition.cells| {
          return false, sectors;
        }
        EraseStep(partition.initial, partition.log, sectors, payload);
        var erased := partition.EraseRange(sectors);
        if !erased {
          return false, sectors;
        }
        sectors := sectors + 1;
      }
      ok := true;
    }

    /** The read loop: collect the header, erase ahead, program the payload behind it. */
    method ReceivePayload(body: Body)
      returns (success: bool, headerBuf: array<byte>, headerCollected: nat, totalWritten: nat,
               ghost sectors: nat, ghost payload: seq<byte>)
      requires partition.Valid() && partition.log == [] && body.Valid()
      modifies partition
      ensures partition.Valid() && partition.initial == old(partition.initial)
      ensures Progress(partition.initial, partition.log, sectors, payload)
      ensures headerBuf.Length == HEADER_SIZE && fresh(headerBuf)
      ensures success ==>
                && body.completes && payload == PayloadOf(body.Bytes()) && totalWritten == |payload|
                && sectors == SectorsFor(totalWritten)
                && headerCollected == Min(HEADER_SIZE, |body.Bytes()|)
                && headerBuf[..headerCollected] == body.Bytes()[..headerCollected]
                && partition.budget + |partition.log| == old(partition.budget)
      ensures NoFault(body, old(partition.budget), |partition.initial|) ==> success
    {
      hide Progress, SectorsFor, PayloadOf;
      headerBuf := new byte[HEADER_SIZE](_ => 0);
      headerCollected, totalWritten, success := 0, 0, false;
      sectors, payload := 0, [];
      var currentSector := 0;
      var n := 0;
      ghost var seen: seq<byte> := [];
      ghost var budget := partition.budget;
      NothingDownloaded(partition.initial);
      NothingNeeded();
      assert body.chunks[..0] == [];
      while true
        invariant 0 <= n <= |body.chunks| && seen == Concat(body.chunks[..n]) && !success
        invariant partition.Valid() && partition.initial == old(partition.initial)
        invariant payload == PayloadOf(seen) && totalWritten == |payload|
        invariant sectors == currentSector == SectorsFor(totalWritten)
        invariant Progress(partition.initial, partition.log, sectors, payload)
        invariant headerCollected == Min(HEADER_SIZE, |seen|) && headerBuf[..headerCollected] == seen[..headerCollected]
        invariant partition.budget == budget - currentSector - totalWritten
        decreases |body.chunks| - n
      {
        if n == |body.chunks| {
          assert body.chunks[..n] == body.chunks;
          ProgressFits(partition.initial, partition.log, sectors, payload);
          success := body.completes;
          break;
        }
        var buffer := body.chunks[n];
        NextChunk(body.chunks, n);
        n := n + 1;
        var bufPos;
        headerCollected, bufPos := CollectHeader(headerBuf, headerCollected, buffer, seen);
        PayloadGrows(seen, buffer, bufPos);
        if |buffer| > bufPos {
          NeverLate(body, seen, |buffer|, |buffer| - bufPos);
          var stored;
          stored, currentSector, payload := StorePayload(buffer[bufPos..], totalWritten, currentSector, payload);
          sectors := currentSector;
          if !stored {
            FaultExplained(body, budget, |partition.initial|, totalWritten + (|buffer| - bufPos));
            break;
          }
          totalWritten := totalWritten + (|buffer| - bufPos);
        }
        seen := seen + buffer;
      }
    }

    /** The first part of a read: fill up the header buffer. */
    method CollectHeader(headerBuf: array<byte>, headerCollected: nat, buffer: seq<byte>, ghost seen: seq<byte>)
      returns (collected: nat, bufPos: nat)
      requires headerBuf.Length == HEADER_SIZE
      requires headerCollected == Min(HEADER_SIZE, |seen|) && headerBuf[..headerCollected] == seen[..headerCollected]
      modifies headerBuf
      ensures collected == Min(HEADER_SIZE, |seen + buffer|) && headerBuf[..collected] == (seen + buffer)[..collected]
      ensures bufPos == if |seen| < HEADER_SIZE then Min(|buffer|, HEADER_SIZE - |seen|) else 0
    {
      collected, bufPos := headerCollected, 0;
      if headerCollected < HEADER_SIZE {
        var take := Min(|buffer|, HEADER_SIZE - headerCollected);
        CopyInto(headerBuf, headerCollected, buffer[..take]);
        collected := headerCollected + take;
        bufPos := take;
        assert headerBuf[..collected] == headerBuf[..headerCollected] + headerBuf[headerCollected..collected];
      }
    }

    /** The second part of a read: erase as far as the data reaches, then program it. */
    method StorePayload(data: seq<byte>, totalWritten: nat, currentSector: nat, ghost payload: seq<byte>)
      returns (ok: bool, sectors: nat, ghost payload': seq<byte>)
      requires partition.Valid() && Progress(partition.initial, partition.log, currentSector, payload)
      requires totalWritten == |payload| && currentSector == SectorsFor(totalWritten) && data != []
      modifies partition
      ensures partition.Valid() && partition.initial == old(partition.initial)
      ensures Progress(partition.initial, partition.log, sectors, payload')
      ensures ok ==>
                && payload' == payload + data && sectors == SectorsFor(|payload'|)
                && partition.budget == old(partition.budget) - (sectors - currentSector) - |data|
      ensures !ok ==> var total := totalWritten + |data|;
                || old(partition.budget) < SectorsFor(total) - currentSector + |data|
                || SECTOR_SIZE * SectorsFor(total) > |partition.initial|
    {
      hide Progress;
      payload' := payload;
      var neededSectors := (HEADER_SIZE + totalWritten + |data| + SECTOR_SIZE - 1) / SECTOR_SIZE;
      ok, sectors := EraseFor(currentSector, neededSectors, payload);
      if !ok {
        return;
      }
      ProgressFits(partition.initial, partition.log, sectors, payload);
      ghost var left, log := partition.budget, partition.log;
      ok := partition.Write(HEADER_SIZE + totalWritten, data);
      ghost var stored := if ok then data else data[..left];
      ProgramSteps(partition.initial, log, sectors, payload, stored);
      payload' := payload + stored;
    }

    /** Everything between the guards and the re-initialization: afterwards the flash holds exactly the
        body, or the download failed.  In either case every state on the way is safe to boot from, for a
        body that is all header if and only if `StaysSafe`. */
    method WriteImage(body: Body, contentLength: nat) returns (written: bool)
      requires HEADER_SIZE <= contentLength <= |partition.cells| && FlashSize(|partition.cells|) && body.Valid()
      modifies partition
      ensures partition.Valid() && partition.initial == old(partition.cells)
      ensures written ==> body.completes && |body.Bytes()| == contentLength
      ensures written && contentLength > HEADER_SIZE ==> partition.cells[..contentLength] == body.Bytes()
      ensures written && contentLength == HEADER_SIZE ==> partition.log == Programs(0, body.Bytes())
      ensures contentLength > HEADER_SIZE ==> Disciplined(partition.log)
      ensures contentLength > HEADER_SIZE || StaysSafe(partition.initial, body.Bytes()) ==>
                SafeThroughout(partition.initial, body.Bytes(), partition.log)
      ensures written ==> (SafeThroughout(partition.initial, body.Bytes(), partition.log) <==>
                           StaysSafe(partition.initial, body.Bytes()))
      ensures NoFault(body, old(partition.budget), |partition.initial|) && |body.Bytes()| == contentLength ==> written
    {
      hide Progress, Disciplined, SectorsFor, CrashSafe, SafeThroughout, StaysSafe;
      partition.StartLog();
      ghost var budget := partition.budget;
      var success, headerBuf, headerCollected, totalWritten;
      ghost var sectors, payload;
      success, headerBuf, headerCollected, totalWritten, sectors, payload := ReceivePayload(body);
      ghost var log := partition.log;
      ghost var initial := partition.initial;
      if success && headerCollected + totalWritten != contentLength {
        success := false;
      }
      PayloadIsSafe(initial, log, sectors, payload, body.Bytes());
      assert log[..|log|] == log;
      if success {
        var header := headerBuf[..];
        assert header == body.Bytes()[..HEADER_SIZE] && body.Bytes() == header + payload;
        ghost var left := partition.budget;
        ProgressFits(initial, log, sectors, payload);
        success := partition.Write(0, header);
        ghost var k := if success then HEADER_SIZE else left;
        assert header[..HEADER_SIZE] == header;
        if contentLength > HEADER_SIZE {
          SomeSectors(|payload|);
          HeaderIsSafe(initial, log, sectors, payload, header, k, body.Bytes());
          LongImageStaysSafe(initial, body.Bytes());
        } else {
          assert sectors == 0 && log == [] by { NothingLogged(initial, log, sectors, payload); }
          assert [] + Programs(0, header[..k]) == Programs(0, header[..k]) && body.Bytes() == header;
          HeaderLogIsSafe(initial, header, k);
        }
      }
      written := success;
    }

    /** The whole download, from the content-length guards to the re-initialized partition. */
    method Download(body: Body, contentLength: nat, freePages: nat) returns (ok: bool)
      requires FlashSize(|partition.cells|) && body.Valid()
      modifies partition, strategy
      ensures !(HEADER_SIZE <= contentLength <= |partition.cells|) ==> !ok && unchanged(partition) && unchanged(strategy)
      ensures |partition.cells| == old(|partition.cells|)
      ensures HEADER_SIZE <= contentLength <= |partition.cells| && !ok ==>
                || Outcome(partition.cells, freePages) == Fault
                || (strategy.assets == map[] && strategy.mmapRoot == [] && !strategy.checksumValid)
      ensures ok ==>
                && |body.Bytes()| == contentLength && body.completes
                && Outcome(partition.cells, freePages) == Ready
                && Installed(partition.cells, strategy.assets, strategy.mmapRoot)
                && (contentLength > HEADER_SIZE ==> partition.cells[..contentLength] == body.Bytes())
      ensures HEADER_SIZE < contentLength <= |partition.cells| ==>
                && partition.Valid() && partition.initial == old(partition.cells) && Disciplined(partition.log)
                && SafeThroughout(partition.initial, body.Bytes(), partition.log)
      ensures contentLength == HEADER_SIZE <= |partition.cells| ==>
                && partition.Valid() && partition.initial == old(partition.cells)
                && (StaysSafe(partition.initial, body.Bytes()) ==>
                      SafeThroughout(partition.initial, body.Bytes(), partition.log))
                && (ok && SafeThroughout(partition.initial, body.Bytes(), partition.log) ==>
                      StaysSafe(partition.initial, body.Bytes()))
      ensures HEADER_SIZE < contentLength == |body.Bytes()| <= |partition.cells| ==>
                NoFault(body, old(partition.budget), |partition.cells|) ==>
                && partition.cells[..contentLength] == body.Bytes()
                && (ok <==> Outcome(partition.cells, freePages) == Ready)
    {
      hide Disciplined, CrashSafe, Replay, NoFault, SafeThroughout, StaysSafe;
      ok := false;
      if contentLength == 0 || contentLength > |partition.cells| || contentLength < HEADER_SIZE {
        return;
      }
      strategy.UnApplyPartition();
      var written := WriteImage(body, contentLength);
      if !written {
        return;
      }
      var outcome := strategy.InitializePartition(partition.cells, freePages);
      ok := outcome == Ready;
    }

    method CopyInto(target: array<byte>, start: nat, data: seq<byte>)
      requires start + |data| <= target.Length
      modifies target
      ensures target[..start] == old(target[..start]) && target[start..start + |data|] == data
    {
      var i := 0;
      while i < |data|
        invariant 0 <= i <= |data|
        invariant target[..start] == old(target[..start]) && target[start..start + i] == data[..i]
      {
        target[start + i] := data[i];
        i := i + 1;
      }
    }
  }

  /** No failing flash operation, no broken connection, and room for whole sectors. */
  ghost predicate NoFault(body: Body, budget: nat, partitionSize: nat) {
    var payload := |PayloadOf(body.Bytes())|;
    && body.completes
    && budget >= SectorsFor(payload) + |body.Bytes()|
    && SECTOR_SIZE * SectorsFor(payload) <= partitionSize
  }

  lemma NothingDownloaded(initial: seq<byte>)
    ensures Progress(initial, [], 0, [])
  {
  }

  lemma NothingNeeded()
    ensures SectorsFor(0) == 0 && PayloadOf([]) == []
  {
  }

  /** A payload write that fails had too little budget or ran past the partition. */
  lemma FaultExplained(body: Body, budget: nat, size: nat, total: nat)
    requires budget < SectorsFor(total) + total || SECTOR_SIZE * SectorsFor(total) > size
    requires total <= |PayloadOf(body.Bytes())| && SectorsFor(total) <= SectorsFor(|PayloadOf(body.Bytes())|)
    ensures !NoFault(body, budget, size)
  {
  }

  lemma NextChunk(chunks: seq<seq<byte>>, n: nat)
    requires n < |chunks|
    ensures Concat(chunks[..n + 1]) == Concat(chunks[..n]) + chunks[n]
    ensures |Concat(chunks[..n])| + |chunks[n]| <= |Concat(chunks)|
  {
    assert chunks[..n + 1] == chunks[..n] + [chunks[n]];
    ConcatAppend(chunks[..n], [chunks[n]]);
    ConcatSingle(chunks[n]);
    assert chunks == chunks[..n + 1] + chunks[n + 1..];
    ConcatAppend(chunks[..n + 1], chunks[n + 1..]);
  }

  lemma PayloadGrows(seen: seq<byte>, buffer: seq<byte>, bufPos: nat)
    requires bufPos == if |seen| < HEADER_SIZE then Min(|buffer|, HEADER_SIZE - |seen|) else 0
    ensures bufPos <= |buffer|
    ensures PayloadOf(seen + buffer) == PayloadOf(seen) + buffer[bufPos..]
  {
  }

  lemma ProgressFits(initial: seq<byte>, log: seq<FlashOp>, sectors: nat, payload: seq<byte>)
    requires Progress(initial, log, sectors, payload)
    ensures SECTOR_SIZE * sectors <= |initial| && |log| == sectors + |payload|
  {
  }

  /** Each chunk needs no more sectors and budget than the whole body. */
  lemma NeverLate(body: Body, seen: seq<byte>, length: nat, writeLen: nat)
    requires |seen| + length <= |body.Bytes()| && 0 < writeLen
    requires writeLen == if |seen| < HEADER_SIZE then length - Min(length, HEADER_SIZE - |seen|) else length
    ensures SectorsFor(|PayloadOf(seen)| + writeLen) <= SectorsFor(|PayloadOf(body.Bytes())|)
    ensures |PayloadOf(seen)| + writeLen <= |PayloadOf(body.Bytes())|
  {
  }

  // ---- crash consistency ----

  /** Sizes for which a length with an erased top byte cannot be accepted. */
  predicate FlashSize(size: nat) {
    HEADER_SIZE <= size <= 0xFF00_0000
  }

  /** Safe to boot from: the old image untouched, an image refused for its length, or the new one. */
  ghost predicate CrashSafe(initial: seq<byte>, image: seq<byte>, cells: seq<byte>) {
    || cells == initial
    || (|cells| >= HEADER_SIZE && !LengthAccepted(cells))
    || (|image| <= |cells| && cells[..|image|] == image)
  }

  /** Cutting power after any operation of the log leaves a safe state. */
  ghost predicate SafeThroughout(initial: seq<byte>, image: seq<byte>, log: seq<FlashOp>) {
    forall m: nat :: m <= |log| ==> CrashSafe(initial, image, Replay(initial, log[..m]))
  }

  ghost predicate HeaderBlank(cells: seq<byte>) {
    |cells| >= HEADER_SIZE && forall i :: 0 <= i < HEADER_SIZE ==> cells[i] == 0xFF
  }

  /** The top byte of the length alone refuses the image. */
  lemma BlankTopByteIsRefused(cells: seq<byte>)
    requires FlashSize(|cells|) && cells[11] == 0xFF
    ensures !LengthAccepted(cells)
  {
  }

  lemma {:induction false} HeaderStaysBlank(initial: seq<byte>, log: seq<FlashOp>, m: nat)
    requires |initial| >= SECTOR_SIZE && 0 < m <= |log| && log[0] == EraseSector(0)
    requires forall i :: 0 <= i < |log| && log[i].Program? ==> HEADER_SIZE <= log[i].address
    ensures HeaderBlank(Replay(initial, log[..m]))
  {
    assert log[..m][..m - 1] == log[..m - 1];
    if m > 1 {
      HeaderStaysBlank(initial, log, m - 1);
    }
  }

  lemma PayloadIsSafe(initial: seq<byte>, log: seq<FlashOp>, sectors: nat, payload: seq<byte>, image: seq<byte>)
    requires Progress(initial, log, sectors, payload) && FlashSize(|initial|)
    ensures Disciplined(log) && SafeThroughout(initial, image, log)
  {
    forall m: nat | m <= |log| ensures CrashSafe(initial, image, Replay(initial, log[..m])) {
      if m == 0 {
        assert log[..0] == [];
      } else {
        HeaderStaysBlank(initial, log, m);
        BlankTopByteIsRefused(Replay(initial, log[..m]));
      }
    }
  }

  lemma NothingLogged(initial: seq<byte>, log: seq<FlashOp>, sectors: nat, payload: seq<byte>)
    requires Progress(initial, log, sectors, payload) && sectors == SectorsFor(|payload|) && payload == []
    ensures sectors == 0 && log == []
  {
  }

  lemma SomeSectors(payload: nat)
    requires payload > 0
    ensures SectorsFor(payload) > 0
  {
  }

  /** The flash while the header is being programmed over a finished payload. */
  ghost predicate HeaderProgress(initial: seq<byte>, log: seq<FlashOp>, sectors: nat, payload: seq<byte>, header: seq<byte>) {
    && |header| <= HEADER_SIZE && 0 < sectors && SECTOR_SIZE * sectors <= |initial|
    && Disciplined(log) && EraseSector(0) in log
    && (forall i :: 0 <= i < |log| && log[i].Program? ==> log[i].address < |header| || HEADER_SIZE <= log[i].address)
    && forall i: nat :: i < |initial| ==>
         Replay(initial, log)[i] == if i < |header| then header[i] else CellAt(initial, sectors, payload, i)
  }

  lemma HeaderStep(initial: seq<byte>, log: seq<FlashOp>, sectors: nat, payload: seq<byte>, header: seq<byte>, value: byte)
    requires HeaderProgress(initial, log, sectors, payload, header) && |header| < HEADER_SIZE
    ensures HeaderProgress(initial, log + [Program(|header|, value)], sectors, payload, header + [value])
  {
    hide Disciplined, Replay, ProgramBits;
    DisciplinedAppend(log, Program(|header|, value));
    ReplayAppend(initial, log, Program(|header|, value));
    ErasedTakesAnyValue(value);
  }

  lemma HeaderStarts(initial: seq<byte>, log: seq<FlashOp>, sectors: nat, payload: seq<byte>)
    requires Progress(initial, log, sectors, payload) && sectors > 0
    ensures HeaderProgress(initial, log, sectors, payload, [])
  {
    hide Disciplined, Replay;
  }

  lemma {:induction false} HeaderSteps(initial: seq<byte>, log: seq<FlashOp>, sectors: nat, payload: seq<byte>, header: seq<byte>, k: nat)
    requires Progress(initial, log, sectors, payload) && sectors > 0
    requires k <= |header| == HEADER_SIZE
    ensures HeaderProgress(initial, log + Programs(0, header[..k]), sectors, payload, header[..k])
    decreases k
  {
    hide Progress, HeaderProgress, Programs;
    if k == 0 {
      assert header[..0] == [] && log + Programs(0, []) == log;
      HeaderStarts(initial, log, sectors, payload);
    } else {
      HeaderSteps(initial, log, sectors, payload, header, k - 1);
      ProgramsAppend(0, header, k - 1);
      Assoc(log, Programs(0, header[..k - 1]), [Program(k - 1, header[k - 1])]);
      HeaderStep(initial, log + Programs(0, header[..k - 1]), sectors, payload, header[..k - 1], header[k - 1]);
      assert header[..k - 1] + [header[k - 1]] == header[..k];
    }
  }

  /** A partial header is refused; the complete one completes the image. */
  lemma HeaderStateIsSafe(initial: seq<byte>, cells: seq<byte>, log: seq<FlashOp>, sectors: nat, payload: seq<byte>,
                          header: seq<byte>, k: nat, image: seq<byte>)
    requires |header| == HEADER_SIZE && k <= HEADER_SIZE && FlashSize(|initial|)
    requires HeaderProgress(initial, log, sectors, payload, header[..k]) && cells == Replay(initial, log)
    requires payload != [] && HEADER_SIZE + |payload| <= SECTOR_SIZE * sectors && image == header + payload
    ensures CrashSafe(initial, image, cells)
    ensures k == HEADER_SIZE ==> |image| <= |cells| && cells[..|image|] == image
  {
    hide Replay, Disciplined;
    if k < HEADER_SIZE {
      assert cells[11] == 0xFF;
      BlankTopByteIsRefused(cells);
    } else {
      assert header[..k] == header;
      forall i: nat | i < |image| ensures cells[..|image|][i] == image[i] {
      }
    }
  }

  lemma HeaderIsSafe(initial: seq<byte>, log: seq<FlashOp>, sectors: nat, payload: seq<byte>, header: seq<byte>,
                     k: nat, image: seq<byte>)
    requires Progress(initial, log, sectors, payload) && FlashSize(|initial|) && sectors > 0 && payload != []
    requires k <= |header| == HEADER_SIZE && image == header + payload
    ensures var whole := log + Programs(0, header[..k]);
      && Disciplined(whole) && SafeThroughout(initial, image, whole)
      && (k == HEADER_SIZE ==> |image| <= |initial| && Replay(initial, whole)[..|image|] == image)
  {
    hide CrashSafe, HeaderProgress, Replay;
    var whole := log + Programs(0, header[..k]);
    PayloadIsSafe(initial, log, sectors, payload, image);
    PayloadEnds(initial, log, sectors, payload);
    forall m: nat | m <= |whole| ensures CrashSafe(initial, image, Replay(initial, whole[..m])) {
      if m <= |log| {
        assert whole[..m] == log[..m];
      } else {
        var j := m - |log|;
        assert whole[..m] == log + Programs(0, header[..j]);
        HeaderSteps(initial, log, sectors, payload, header, j);
        HeaderStateIsSafe(initial, Replay(initial, whole[..m]), whole[..m], sectors, payload, header, j, image);
      }
    }
    HeaderSteps(initial, log, sectors, payload, header, k);
    HeaderStateIsSafe(initial, Replay(initial, whole), whole, sectors, payload, header, k, image);
    HeaderProgressIsDisciplined(initial, whole, sectors, payload, header[..k]);
  }

  lemma PayloadEnds(initial: seq<byte>, log: seq<FlashOp>, sectors: nat, payload: seq<byte>)
    requires Progress(initial, log, sectors, payload) && payload != []
    ensures HEADER_SIZE + |payload| <= SECTOR_SIZE * sectors <= |initial|
  {
  }

  lemma HeaderProgressIsDisciplined(initial: seq<byte>, log: seq<FlashOp>, sectors: nat, payload: seq<byte>, header: seq<byte>)
    requires HeaderProgress(initial, log, sectors, payload, header)
    ensures Disciplined(log)
  {
  }

  /** A download that was broken off or refused leaves nothing to be looked up. */
  method DownloadThenLookUp(assets: Assets, body: Body, contentLength: nat, freePages: nat, name: seq<byte>)
    returns (ok: bool, found: Lookup)
    requires FlashSize(|assets.partition.cells|) && body.Valid()
    requires HEADER_SIZE <= contentLength <= |assets.partition.cells|
    modifies assets.partition, assets.strategy
    ensures |assets.partition.cells| == old(|assets.partition.cells|)
    ensures !ok && Outcome(assets.partition.cells, freePages) != Fault ==> found == NotFound
    ensures !body.completes || |body.Bytes()| != contentLength ==> !ok
  {
    hide Outcome, Installed, StaysSafe, SafeThroughout, Disciplined, NoFault;
    ok := assets.Download(body, contentLength, freePages);
    found := assets.strategy.GetAssetData(name);
  }

  /** Enough free pages to map an image of this length. */
  predicate CanMap(contentLength: nat, partitionSize: nat, freePages: nat) {
    contentLength >= HEADER_SIZE && MapSize(contentLength - HEADER_SIZE, partitionSize) <= StorageSize(freePages)
  }

  /** The mapping and index of the image in these cells. */
  ghost predicate Installed(cells: seq<byte>, index: map<seq<byte>, Asset>, root: seq<byte>)
    requires FlashSize(|cells|)
  {
    root == Mapped(cells) && Some(index) == IndexUpTo(root, U32(cells[..4]), U32(cells[..4]))
  }

  /** Looking up the name of any of the files finds its bytes. */
  ghost predicate ServesAll(index: map<seq<byte>, Asset>, root: seq<byte>, files: seq<File>) {
    forall i :: 0 <= i < |files| ==> LookupIn(index, root, files[i].name) == Found(files[i].data)
  }

  /** End to end: a packed image, fetched in any chunks without a fault, serves every packed file. */
  method InstallPackage(assets: Assets, ghost files: seq<File>, body: Body, contentLength: nat, freePages: nat)
    returns (ok: bool)
    requires FlashSize(|assets.partition.cells|) && body.Valid() && contentLength == |body.Bytes()| <= |assets.partition.cells|
    requires Packable(files) && files != [] && body.Bytes() == ImageOf(files)
    requires NoFault(body, assets.partition.budget, |assets.partition.cells|)
    requires CanMap(contentLength, |assets.partition.cells|, freePages)
    modifies assets.partition, assets.strategy
    ensures ok
    ensures ServesAll(assets.strategy.assets, assets.strategy.mmapRoot, files)
  {
    assert Fits(files);
    ImageLength(files);
    ghost var size := |assets.partition.cells|;
    hide NoFault, SafeThroughout, StaysSafe, Disciplined, Replay, Packable, Fits, ImageOf, CanMap,
      FlashSize, Outcome, Installed, ServesAll, Partition.Valid, Body.Valid, Body.Bytes;
    ok := assets.Download(body, contentLength, freePages);
    ghost var cells := assets.partition.cells;
    assert |cells| == size && cells[..contentLength] == ImageOf(files);
    InstalledIsServed(files, cells, contentLength, freePages, assets.strategy.assets, assets.strategy.mmapRoot);
  }

  lemma InstalledIsServed(files: seq<File>, cells: seq<byte>, contentLength: nat, freePages: nat,
                          index: map<seq<byte>, Asset>, root: seq<byte>)
    requires Packable(files) && files != [] && FlashSize(|cells|)
    requires contentLength == |ImageOf(files)| <= |cells| && cells[..contentLength] == ImageOf(files)
    requires CanMap(contentLength, |cells|, freePages)
    ensures Outcome(cells, freePages) == Ready
    ensures Installed(cells, index, root) ==> ServesAll(index, root, files)
  {
    hide IndexUpTo, LookupIn, ImageOf, Mapped, MapSize, StorageSize, Outcome, Table, Merged, ComputeChecksum, U32;
    HeaderReadsBack(files, cells);
    PackedImageIsServed(files, cells, freePages);
  }

  lemma ImageLength(files: seq<File>)
    requires Fits(files) && files != []
    ensures |ImageOf(files)| > HEADER_SIZE
  {
    ImageParts(files);
  }

  // ---- a body that is all header ----

  lemma {:induction false} HeaderOverOldCells(initial: seq<byte>, header: seq<byte>, k: nat)
    requires k <= |header| <= |initial|
    ensures forall i :: 0 <= i < |initial| ==>
              Replay(initial, Programs(0, header[..k]))[i] == if i < k then ProgramBits(initial[i], header[i]) else initial[i]
  {
    hide ProgramBits;
    if k > 0 {
      HeaderOverOldCells(initial, header, k - 1);
      ProgramsAppend(0, header, k - 1);
      ReplayAppend(initial, Programs(0, header[..k - 1]), Program(k - 1, header[k - 1]));
    }
  }

  /** The old cells with the first `k` bytes of a header programmed over them. */
  function Overwritten(initial: seq<byte>, header: seq<byte>, k: nat): (cells: seq<byte>)
    requires k <= |header| <= |initial|
    ensures |cells| == |initial|
  {
    seq(|initial|, i requires 0 <= i < |initial| => if i < k then ProgramBits(initial[i], header[i]) else initial[i])
  }

  /** After `k` bytes of the header something has changed, and the stored length is not too large. */
  predicate ExposedAt(initial: seq<byte>, header: seq<byte>, k: nat)
    requires k <= |header| == HEADER_SIZE <= |initial|
  {
    Overwritten(initial, header, k) != initial && StoredLen(Overwritten(initial, header, k)) <= |initial| - HEADER_SIZE
  }

  ghost predicate FirstExposedAt(initial: seq<byte>, header: seq<byte>, k: nat)
    requires k <= |header| == HEADER_SIZE <= |initial|
  {
    ExposedAt(initial, header, k) && forall j: nat :: j < k ==> !ExposedAt(initial, header, j)
  }

  /** The one intermediate state that decides, if there is one, is safe. */
  ghost predicate HeaderOnlySafe(initial: seq<byte>, header: seq<byte>)
    requires |header| == HEADER_SIZE <= |initial|
  {
    forall k: nat :: k <= HEADER_SIZE && FirstExposedAt(initial, header, k) ==>
      CrashSafe(initial, header, Overwritten(initial, header, k))
  }

  lemma {:induction false} AndIsSmaller(a: nat, b: nat, bits: nat)
    ensures AndBits(a, b, bits) <= a
    ensures AndBits(a, b, bits) == b ==> AndBits(b, b, bits) == b
  {
    if bits > 0 {
      AndIsSmaller(a / 2, b / 2, bits - 1);
    }
  }

  lemma ProgrammingOnlyClears(initial: seq<byte>, header: seq<byte>, j: nat, k: nat)
    requires j <= k <= |header| == HEADER_SIZE <= |initial|
    ensures forall i :: 0 <= i < |initial| ==> Overwritten(initial, header, k)[i] <= Overwritten(initial, header, j)[i]
    ensures StoredLen(Overwritten(initial, header, k)) <= StoredLen(Overwritten(initial, header, j))
  {
    hide AndBits;
    forall i | 0 <= i < |initial| ensures Overwritten(initial, header, k)[i] <= Overwritten(initial, header, j)[i] {
      if i < k {
        AndIsSmaller(initial[i], header[i], 8);
      }
    }
    var late, soon := Overwritten(initial, header, k)[8..12], Overwritten(initial, header, j)[8..12];
    assert forall n :: 0 <= n < 4 ==> late[n] == Overwritten(initial, header, k)[8 + n];
    assert forall n :: 0 <= n < 4 ==> soon[n] == Overwritten(initial, header, j)[8 + n];
  }

  /** Once the cells read as the whole header, programming the rest changes nothing. */
  lemma CompleteStaysComplete(initial: seq<byte>, header: seq<byte>, j: nat, k: nat)
    requires j <= k <= |header| == HEADER_SIZE <= |initial|
    requires Overwritten(initial, header, j)[..HEADER_SIZE] == header
    ensures Overwritten(initial, header, k) == Overwritten(initial, header, j)
  {
    hide AndBits;
    var soon := Overwritten(initial, header, j);
    forall i | 0 <= i < |initial| ensures Overwritten(initial, header, k)[i] == soon[i] {
      if j <= i < k {
        assert soon[..HEADER_SIZE][i] == soon[i] == initial[i] == header[i];
        SameTakesItself(header[i]);
      }
    }
  }

  lemma SameTakesItself(value: byte)
    ensures ProgramBits(value, value) == value
  {
    ErasedTakesAnyValue(value);
    AndIsSmaller(0xFF, value, 8);
  }

  /** A safe first exposed state makes every later state safe. */
  lemma LaterIsSafe(initial: seq<byte>, header: seq<byte>, j: nat, k: nat)
    requires j <= k <= |header| == HEADER_SIZE <= |initial|
    requires ExposedAt(initial, header, j) && CrashSafe(initial, header, Overwritten(initial, header, j))
    ensures CrashSafe(initial, header, Overwritten(initial, header, k))
  {
    hide Overwritten, StoredLen;
    ProgrammingOnlyClears(initial, header, j, k);
    if Overwritten(initial, header, j)[..HEADER_SIZE] == header {
      CompleteStaysComplete(initial, header, j, k);
    }
  }

  lemma {:induction false} EveryPrefixIsSafe(initial: seq<byte>, header: seq<byte>, k: nat)
    requires k <= |header| == HEADER_SIZE <= |initial| && HeaderOnlySafe(initial, header)
    ensures CrashSafe(initial, header, Overwritten(initial, header, k))
    ensures (forall j: nat :: j <= k ==> !ExposedAt(initial, header, j))
         || exists j: nat :: j <= k && FirstExposedAt(initial, header, j)
  {
    hide Overwritten, StoredLen;
    if k > 0 {
      EveryPrefixIsSafe(initial, header, k - 1);
    }
    if !ExposedAt(initial, header, k) {
    } else if forall j: nat :: j < k ==> !ExposedAt(initial, header, j) {
      assert FirstExposedAt(initial, header, k);
    }
    if j: nat :| j <= k && FirstExposedAt(initial, header, j) {
      LaterIsSafe(initial, header, j, k);
    }
  }

  /** Crash consistency of a download of exactly 12 bytes: cutting power is safe after every byte if and
      only if it is safe after the first one that changes a cell and leaves an acceptable length. */
  lemma HeaderOnlyIsSafeIff(initial: seq<byte>, header: seq<byte>)
    requires |header| == HEADER_SIZE <= |initial|
    ensures (forall k: nat :: k <= HEADER_SIZE ==> CrashSafe(initial, header, Replay(initial, Programs(0, header[..k]))))
            <==> HeaderOnlySafe(initial, header)
  {
    hide CrashSafe, Replay, Overwritten, FirstExposedAt;
    forall k: nat | k <= HEADER_SIZE
      ensures Replay(initial, Programs(0, header[..k])) == Overwritten(initial, header, k)
    {
      OverwrittenIsReplay(initial, header, k);
    }
    if HeaderOnlySafe(initial, header) {
      forall k: nat | k <= HEADER_SIZE ensures CrashSafe(initial, header, Overwritten(initial, header, k)) {
        EveryPrefixIsSafe(initial, header, k);
      }
    }
  }

  /** An image longer than its header always stays safe; one that is all header when this says so. */
  ghost predicate StaysSafe(initial: seq<byte>, image: seq<byte>) {
    |image| == HEADER_SIZE <= |initial| ==> HeaderOnlySafe(initial, image)
  }

  lemma LongImageStaysSafe(initial: seq<byte>, image: seq<byte>)
    requires |image| > HEADER_SIZE
    ensures StaysSafe(initial, image)
  {
  }

  lemma HeaderLogIsSafe(initial: seq<byte>, header: seq<byte>, k: nat)
    requires k <= |header| == HEADER_SIZE <= |initial|
    ensures StaysSafe(initial, header) ==> SafeThroughout(initial, header, Programs(0, header[..k]))
    ensures k == HEADER_SIZE && SafeThroughout(initial, header, Programs(0, header[..k])) ==> StaysSafe(initial, header)
  {
    hide CrashSafe, Replay, HeaderOnlySafe;
    HeaderOnlyIsSafeIff(initial, header);
    forall m: nat | m <= k ensures Programs(0, header[..k])[..m] == Programs(0, header[..m]) {
    }
  }

  lemma OverwrittenIsReplay(initial: seq<byte>, header: seq<byte>, k: nat)
    requires k <= |header| <= |initial|
    ensures Replay(initial, Programs(0, header[..k])) == Overwritten(initial, header, k)
  {
    hide ProgramBits, Replay;
    HeaderOverOldCells(initial, header, k);
  }

  /** Over an accepted old image the deciding state is the first change, at cell `d`, and it is safe if
      and only if that was the only cell to change and it took its value, or it emptied the length. */
  lemma FirstChangeDecides(initial: seq<byte>, header: seq<byte>, d: nat)
    requires |header| == HEADER_SIZE <= |initial| && d < HEADER_SIZE && LengthAccepted(initial)
    requires ProgramBits(initial[d], header[d]) != initial[d]
    requires forall i :: 0 <= i < d ==> ProgramBits(initial[i], header[i]) == initial[i]
    ensures HeaderOnlySafe(initial, header) <==>
            || (&& ProgramBits(initial[d], header[d]) == header[d]
                && forall i :: 0 <= i < HEADER_SIZE && i != d ==> initial[i] == header[i])
            || (&& d >= 8 && ProgramBits(initial[d], header[d]) == 0
                && forall i :: 8 <= i < HEADER_SIZE && i != d ==> initial[i] == 0)
  {
    FirstChangeIsExposed(initial, header, d);
    hide ProgramBits, StoredLen, FirstExposedAt, ExposedAt;
    var cells := Overwritten(initial, header, d + 1);
    assert cells[..HEADER_SIZE] == header <==> forall i :: 0 <= i < HEADER_SIZE ==> cells[i] == header[i];
    EmptyLength(cells);
    EmptyLength(initial);
  }

  lemma EmptyLength(cells: seq<byte>)
    requires |cells| >= HEADER_SIZE
    ensures StoredLen(cells) == 0 <==> forall i :: 8 <= i < HEADER_SIZE ==> cells[i] == 0
  {
    assert forall n :: 0 <= n < 4 ==> cells[8..12][n] == cells[8 + n];
  }

  lemma FirstChangeIsExposed(initial: seq<byte>, header: seq<byte>, d: nat)
    requires |header| == HEADER_SIZE <= |initial| && d < HEADER_SIZE && LengthAccepted(initial)
    requires ProgramBits(initial[d], header[d]) != initial[d]
    requires forall i :: 0 <= i < d ==> ProgramBits(initial[i], header[i]) == initial[i]
    ensures FirstExposedAt(initial, header, d + 1)
    ensures StoredLen(Overwritten(initial, header, d + 1)) <= StoredLen(initial)
    ensures HeaderOnlySafe(initial, header) <==> CrashSafe(initial, header, Overwritten(initial, header, d + 1))
  {
    hide ProgramBits, StoredLen, CrashSafe;
    forall j: nat | j <= d ensures Overwritten(initial, header, j) == initial {
    }
    assert Overwritten(initial, header, d + 1)[d] != initial[d];
    ProgrammingOnlyClears(initial, header, 0, d + 1);
  }

  /** If no cell would change the download is always safe. */
  lemma NoChangeIsSafe(initial: seq<byte>, header: seq<byte>)
    requires |header| == HEADER_SIZE <= |initial|
    requires forall i :: 0 <= i < HEADER_SIZE ==> ProgramBits(initial[i], header[i]) == initial[i]
    ensures HeaderOnlySafe(initial, header)
  {
    hide ProgramBits;
    forall k: nat | k <= HEADER_SIZE ensures Overwritten(initial, header, k) == initial {
    }
  }

  /** With a content length of exactly 12 nothing is erased, and the header arrives intact just where
      the old cells already have all of its bits. */
  lemma HeaderOnlyDownload(initial: seq<byte>, header: seq<byte>)
    requires |header| == HEADER_SIZE <= |initial|
    ensures Replay(initial, Programs(0, header))[..HEADER_SIZE] == header <==>
            forall i :: 0 <= i < HEADER_SIZE ==> ProgramBits(initial[i], header[i]) == header[i]
  {
    hide ProgramBits, Replay;
    HeaderOverOldCells(initial, header, HEADER_SIZE);
    assert header[..HEADER_SIZE] == header;
    var cells := Replay(initial, Programs(0, header));
    if forall i :: 0 <= i < HEADER_SIZE ==> ProgramBits(initial[i], header[i]) == header[i] {
      assert cells[..HEADER_SIZE] == header;
    } else {
      var i :| 0 <= i < HEADER_SIZE && ProgramBits(initial[i], header[i]) != header[i];
      assert cells[..HEADER_SIZE][i] != header[i];
    }
  }

  /** Such a download can leave an accepted header that is neither the old nor the new one. */
  lemma HeaderOnlyDownloadCanMix()
    ensures var initial: seq<byte> := [2, 0, 0, 0, 0, 0, 0, 0, 1, 0, 0, 0, 0];
      var header: seq<byte> := [1, 0, 0, 0, 0, 0, 0, 0, 1, 0, 0, 0];
      LengthAccepted(initial) && !CrashSafe(initial, header, Replay(initial, Programs(0, header)))
  {
    hide Replay;
    var initial: seq<byte> := [2, 0, 0, 0, 0, 0, 0, 0, 1, 0, 0, 0, 0];
    var header: seq<byte> := [1, 0, 0, 0, 0, 0, 0, 0, 1, 0, 0, 0];
    HeaderOverOldCells(initial, header, HEADER_SIZE);
    assert header[..HEADER_SIZE] == header;
    AndOfSmall();
    var cells := Replay(initial, Programs(0, header));
    assert cells[0] == 0 && cells[8] == 1 && cells[9] == 0 && cells[10] == 0 && cells[11] == 0;
  }

  lemma AndOfSmall()
    ensures ProgramBits(2, 1) == 0 && ProgramBits(1, 1) == 1 && ProgramBits(0, 0) == 0
  {
    assert AndBits(0, 0, 4) == 0;
    assert AndBits(0, 0, 6) == 0;
    assert AndBits(0, 0, 7) == 0;
    assert AndBits(1, 0, 7) == 0;
  }
}
