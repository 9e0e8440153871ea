/** The encoder over the life of a file: open or reopen, buffer, flush, seal (src/gics/encode.ts,
    src/gics/file-access.ts). A log is what the file holds, segment by segment. */
module Append {
  import opened Bytes
  import opened Snapshots
  import opened SegmentCodec
  import opened Container
  import opened GicsFile
  import opened Layout
  import Blocks
  import Grouping
  import Health
  import Pipeline
  import SegmentIndex
  import Integrity

  // ---- extending a log ----------------------------------------------------

  lemma AllOkSnoc(log: seq<Coded>, c: Coded, on: bool)
    requires AllOk(log, on) && CodedOk(c, on)
    ensures AllOk(log + [c], on)
  {
    hide CodedOk;
  }

  lemma {:induction false} SegsSnoc(env: Env, on: bool, log: seq<Coded>, c: Coded, ordinal: nat, chain: seq<byte>)
    requires CodedOk(c, on) && AllOk(log, on)
    ensures AllOk(log + [c], on)
    ensures var (front, root) := Segs(env, on, log, ordinal, chain);
            && Segs(env, on, log + [c], ordinal, chain).0 == front + BytesOf(env, on, c, ordinal + |log|, root)
            && Segs(env, on, log + [c], ordinal, chain).1 == RootAfter(env, on, c, ordinal + |log|, root)
    decreases |log|
  {
    hide BytesOf, RootAfter, CodedOk;
    AllOkSnoc(log, c, on);
    if log == [] {
      assert log + [c] == [c] && [c][1..] == [];
    } else {
      var root := RootAfter(env, on, log[0], ordinal, chain);
      SegsSnoc(env, on, log[1..], c, ordinal + 1, root);
      assert (log + [c])[1..] == log[1..] + [c];
    }
  }

  lemma {:induction false} LogOkSnoc(env: Env, on: bool, log: seq<Coded>, c: Coded, ordinal: nat, chain: seq<byte>)
    requires LogOk(env, on, log, ordinal, chain) && CodedOk(c, on) && EnvOk(env)
    requires Fits(env, on, c, ordinal + |log|, Segs(env, on, log, ordinal, chain).1)
    ensures LogOk(env, on, log + [c], ordinal, chain)
    decreases |log|
  {
    hide Fits, RootAfter, CodedOk, BytesOf, EnvOk;
    AllOkSnoc(log, c, on);
    if log == [] {
      assert log + [c] == [c] && [c][1..] == [];
      RootSize(env, on, c, ordinal, chain);
    } else {
      var root := RootAfter(env, on, log[0], ordinal, chain);
      LogOkSnoc(env, on, log[1..], c, ordinal + 1, root);
      assert (log + [c])[1..] == log[1..] + [c];
    }
  }

  lemma {:induction false} AllSnapshotsAppend(a: seq<Coded>, b: seq<Coded>)
    ensures AllSnapshots(a + b) == AllSnapshots(a) + AllSnapshots(b)
  {
    if a == [] {
      assert a + b == b;
    } else {
      AllSnapshotsAppend(a[1..], b);
      assert (a + b)[1..] == a[1..] + b;
      var x, y, z := a[0].snaps, AllSnapshots(a[1..]), AllSnapshots(b);
      assert x + (y + z) == x + y + z;
    }
  }

  // ---- preparing an existing file -----------------------------------------

  datatype AppendState = AppendState(prevRoot: Option<seq<byte>>, segmentCount: nat, file: seq<byte>)

  function CountSegments(s: seq<byte>): Result<nat>
    decreases |s|
  {
    if |s| <= EOS_SIZE then Ok(0)
    else if |s| < 14 + EOS_SIZE then Err(Truncated)
    else
      match ReadHeader(s)
      case Err(e) => Err(e)
      case Ok(h) =>
        if h.totalLength == 0 || h.totalLength > |s| - EOS_SIZE then Err(Malformed)
        else
          match CountSegments(s[h.totalLength..])
          case Err(e) => Err(e)
          case Ok(n) => Ok(n + 1)
  }

  /** inspectAppendMetadata: no count is taken of a file that does not start like one. */
  function InspectAppend(env: Env, raw: seq<byte>): Result<nat>
  {
    if |raw| < 14 || raw[..4] != [0x47, 0x49, 0x43, 0x53] || raw[4] != 3 then Ok(0)
    else
      match ReadFileHeader(env, raw)
      case Err(e) => Err(e)
      case Ok(pos) => CountSegments(raw[pos..])
  }

  /** prepareForAppend: a file too short for a header and an end record counts as new. */
  function PrepareForAppend(env: Env, file: seq<byte>): Result<AppendState>
  {
    if |file| < 12 || |file| - EOS_SIZE < 12 then Ok(AppendState(None, 0, file))
    else
      var eosOffset := |file| - EOS_SIZE;
      if file[eosOffset] != 0xFF then Err(Malformed)
      else
        match InspectAppend(env, file)
        case Err(e) => Err(e)
        case Ok(n) => Ok(AppendState(Some(file[eosOffset + 1..eosOffset + 33]), n, file[..eosOffset]))
  }

  lemma {:induction false} CountSegs(env: Env, on: bool, log: seq<Coded>, ordinal: nat, chain: seq<byte>, eos: seq<byte>)
    requires EnvOk(env) && LogOk(env, on, log, ordinal, chain) && |eos| == EOS_SIZE
    ensures CountSegments(Segs(env, on, log, ordinal, chain).0 + eos) == Ok(|log|)
    decreases |log|
  {
    hide LogOk, Segs, ParseSegment, FollowChain, DecodeParsed, DecodeSegment, EncodedOf, CodedOk, BytesOf, RootAfter,
         Fits, EnvOk, IndexFor, ReadHeader;
    LogParts(env, on, log, ordinal, chain);
    if log == [] {
      EmptyLog(env, on, ordinal, chain);
      assert [] + eos == eos;
    } else {
      var p, root := FrontSegment(env, on, log, ordinal, chain, eos);
      ReadAsParts(env, on, log[0], ordinal, chain, p);
      var s := Segs(env, on, log, ordinal, chain).0 + eos;
      ParsedHeader(env, s);
      CountSegs(env, on, log[1..], ordinal + 1, root, eos);
    }
  }

  lemma ParsedHeader(env: Env, s: seq<byte>)
    requires ParseSegment(env, s).Ok?
    ensures ReadHeader(s).Ok? && ReadHeader(s).value.totalLength == ParseSegment(env, s).value.size >= 50
  {
    hide ParseBody;
  }

  /** Reopening looks at nothing of the end record but its first byte, and takes the root it names on trust: any other 37
      bytes that start with the marker are accepted, without a look at their CRC. */
  lemma ReopenTrustsEndRecord(env: Env, on: bool, log: seq<Coded>, eos: seq<byte>)
    requires EnvOk(env) && LogOk(env, on, log, 0, Genesis()) && AllOk(log, on) && |eos| == EOS_SIZE
    ensures var segs := Segs(env, on, log, 0, Genesis()).0;
            var file := FileHeader(env) + (segs + eos);
            && (PrepareForAppend(env, file).Ok? <==> eos[0] == 0xFF)
            && (eos[0] == 0xFF ==>
                  PrepareForAppend(env, file) == Ok(AppendState(Some(eos[1..33]), |log|, FileHeader(env) + segs)))
  {
    hide LogOk, Segs, CountSegments, FileHeader, ReadFileHeader;
    var segs := Segs(env, on, log, 0, Genesis()).0;
    var file := FileHeader(env) + (segs + eos);
    FileHeaderBack(env, segs + eos);
    CountSegs(env, on, log, 0, Genesis(), eos);
    HeaderStart(env);
    var eosOffset := |file| - EOS_SIZE;
    assert file[..4] == FileHeader(env)[..4] && file[4] == FileHeader(env)[4];
    assert file[|FileHeader(env)|..] == segs + eos;
    assert file[..eosOffset] == FileHeader(env) + segs && file[eosOffset..] == eos;
    assert file[eosOffset] == eos[0] && file[eosOffset + 1..eosOffset + 33] == eos[1..33];
  }

  /** Reopening a sealed file finds its root and its segment count, and leaves everything but the end record. */
  lemma PrepareSealed(env: Env, on: bool, log: seq<Coded>)
    requires EnvOk(env) && LogOk(env, on, log, 0, Genesis())
    ensures var (segs, root) := Segs(env, on, log, 0, Genesis());
            PrepareForAppend(env, FileBytes(env, on, log))
              == Ok(AppendState(Some(root), |log|, FileHeader(env) + segs))
  {
    hide LogOk, Segs, CountSegments, FileHeader, ReadFileHeader, EosBytes;
    LogParts(env, on, log, 0, Genesis());
    SealedShape(env, on, log);
    var (segs, root) := Segs(env, on, log, 0, Genesis());
    var data := FileBytes(env, on, log);
    EosBack(env, root, []);
    CountSegs(env, on, log, 0, Genesis(), EosBytes(env, root));
    HeaderStart(env);
    var eosOffset := |data| - EOS_SIZE;
    assert data == FileHeader(env) + (segs + EosBytes(env, root));
    assert data[..4] == FileHeader(env)[..4] && data[4] == FileHeader(env)[4];
    assert data[..eosOffset] == FileHeader(env) + segs;
    assert data[eosOffset..] == EosBytes(env, root);
    EosRoot(env, root);
    assert data[eosOffset + 1..eosOffset + 33] == data[eosOffset..][1..33];
  }

  lemma EosRoot(env: Env, root: seq<byte>)
    requires |root| == 32
    ensures |EosBytes(env, root)| == EOS_SIZE && EosBytes(env, root)[0] == 0xFF && EosBytes(env, root)[1..33] == root
  {
  }

  lemma HeaderStart(env: Env)
    ensures |FileHeader(env)| >= 14
    ensures FileHeader(env)[..4] == [0x47, 0x49, 0x43, 0x53] && FileHeader(env)[4] == 3
  {
  }

  function Counted(n: nat, rest: Result<nat>): Result<nat>
  {
    match rest
    case Err(e) => Err(e)
    case Ok(k) => Ok(n + k)
  }

  /** The segment loop of inspectAppendMetadata. */
  method CountSegmentsAt(raw: seq<byte>, start: nat) returns (r: Result<nat>)
    requires start <= |raw|
    ensures r == CountSegments(raw[start..])
  {
    hide ReadHeader;
    var pos: nat, segmentCount: nat := start, 0;
    while pos + EOS_SIZE < |raw|
      invariant start <= pos <= |raw|
      invariant CountSegments(raw[start..]) == Counted(segmentCount, CountSegments(raw[pos..]))
      decreases |raw| - pos
    {
      if pos + 14 + EOS_SIZE > |raw| {
        return Err(Truncated);
      }
      var header := ReadHeader(raw[pos..]);
      if header.Err? {
        return Err(header.error);
      }
      if header.value.totalLength == 0 {
        return Err(Malformed);
      }
      var nextPos := pos + header.value.totalLength;
      if nextPos + EOS_SIZE > |raw| {
        return Err(Malformed);
      }
      assert raw[pos..][header.value.totalLength..] == raw[nextPos..];
      pos := nextPos;
      segmentCount := segmentCount + 1;
    }
    r := Ok(segmentCount);
  }

  /** prepareForAppend: the end record is cut off only after everything else has been read. */
  method Prepare(env: Env, file: seq<byte>) returns (r: Result<AppendState>)
    ensures r == PrepareForAppend(env, file)
  {
    hide CountSegments, ReadFileHeader;
    if |file| < 12 || |file| - EOS_SIZE < 12 {
      return Ok(AppendState(None, 0, file));
    }
    var eosOffset := |file| - EOS_SIZE;
    if file[eosOffset] != 0xFF {
      return Err(Malformed);
    }
    var prevRoot := file[eosOffset + 1..eosOffset + 33];
    var segmentCount: nat := 0;
    if |file| >= 14 && file[..4] == [0x47, 0x49, 0x43, 0x53] && file[4] == 3 {
      var pos := ReadFileHeader(env, file);
      if pos.Err? {
        return Err(pos.error);
      }
      var counted := CountSegmentsAt(file, pos.value);
      if counted.Err? {
        return Err(counted.error);
      }
      segmentCount := counted.value;
    }
    r := Ok(AppendState(Some(prevRoot), segmentCount, file[..eosOffset]));
  }

  // ---- sealing without a snapshot -----------------------------------------

  /** A first seal without any snapshot writes a bare end record: it does not decode, it is taken for a
      new file when reopened, and nothing written behind it can make it decode. */
  lemma EmptySealIsFatal(env: Env, more: seq<byte>)
    requires EnvOk(env)
    ensures var file := EosBytes(env, Genesis());
            && PrepareForAppend(env, file) == Ok(AppendState(None, 0, file))
            && DecodeFile(env, file + more).Err?
  {
    hide ToLE;
    EosBack(env, Genesis(), []);
    var file := EosBytes(env, Genesis());
    assert (file + more)[0] == 0xFF;
  }

  // ---- the encoder --------------------------------------------------------

  /** appendData at the tracked offset. */
  function WriteAt(file: seq<byte>, offset: nat, data: seq<byte>): seq<byte>
    requires offset <= |file|
  {
    file[..offset] + data + (if offset + |data| < |file| then file[offset + |data|..] else [])
  }

  datatype Config = Config(grouping: Grouping.Options, blockSize: nat, probeInterval: int)

  predicate ConfigOk(c: Config) { c.blockSize >= 1 && c.grouping.maxSnapshotsPerSegment >= 1 }

  /** Whatever codecs and routes are chosen for the group's blocks, cut as the encoder cuts them, its segment fits
      the format's fields. */
  ghost predicate GroupFits(env: Env, on: bool, blockSize: nat, group: seq<Snapshot>)
    requires blockSize >= 1
  {
    && Pipeline.InBounds(Collect(group).columns)
    && forall c: Coded, n: nat, chain: seq<byte> ::
         CutFrom(c, on, blockSize, group) && |chain| == 32 ==> Fits(env, on, c, n, chain)
  }

  predicate CutFrom(c: Coded, on: bool, blockSize: nat, group: seq<Snapshot>)
    requires blockSize >= 1
  {
    c.snaps == group && CodedOk(c, on) && Pipeline.CutLike(c.plan, Collect(group), blockSize)
  }

  /** Each group the buffer will be cut into fits. */
  ghost predicate BufferFits(env: Env, on: bool, config: Config, snapshots: seq<Snapshot>)
    requires ConfigOk(config)
  {
    GroupsFit(env, on, config.blockSize, Grouping.Groups(snapshots, config.grouping))
  }

  ghost predicate GroupsFit(env: Env, on: bool, blockSize: nat, groups: seq<seq<Snapshot>>)
    requires blockSize >= 1
  {
    forall i :: 0 <= i < |groups| ==> GroupFits(env, on, blockSize, groups[i])
  }

  /** One segment for each group. */
  predicate SameGroups(coded: seq<Coded>, groups: seq<seq<Snapshot>>)
  {
    |coded| == |groups| && forall i :: 0 <= i < |coded| ==> coded[i].snaps == groups[i]
  }

  lemma BufferGroups(env: Env, on: bool, config: Config, snapshots: seq<Snapshot>)
    requires ConfigOk(config) && BufferFits(env, on, config, snapshots)
    ensures GroupsFit(env, on, config.blockSize, Grouping.Groups(snapshots, config.grouping))
  {
  }

  lemma NoneEmpty(groups: seq<seq<Snapshot>>, maxItems: nat)
    requires Grouping.GroupsOk(groups, maxItems)
    ensures forall i :: 0 <= i < |groups| ==> groups[i] != []
  {
    forall i | 0 <= i < |groups|
      ensures groups[i] != []
    {
      assert Grouping.GroupOk(groups[i], maxItems);
    }
  }

  lemma GroupAt(env: Env, on: bool, blockSize: nat, groups: seq<seq<Snapshot>>, i: nat)
    requires blockSize >= 1 && GroupsFit(env, on, blockSize, groups) && i < |groups|
    ensures GroupFits(env, on, blockSize, groups[i])
  {
    hide GroupFits;
  }

  lemma AllSnapshotsOne(c: Coded)
    ensures AllSnapshots([c]) == c.snaps
  {
    assert [c][1..] == [];
  }

  lemma PrepareNew(env: Env)
    ensures PrepareForAppend(env, []) == Ok(AppendState(None, 0, []))
  {
  }

  /** What a session with this log leaves behind: nothing, or a sealed file. */
  ghost function PriorFile(env: Env, on: bool, prior: seq<Coded>): seq<byte>
    requires LogOk(env, on, prior, 0, Genesis())
  {
    LogParts(env, on, prior, 0, Genesis());
    if prior == [] then [] else FileBytes(env, on, prior)
  }

  lemma Reopened(env: Env, on: bool, prior: seq<Coded>)
    requires EnvOk(env) && LogOk(env, on, prior, 0, Genesis())
    ensures AllOk(prior, on)
    ensures var (segs, root) := Segs(env, on, prior, 0, Genesis());
            && PrepareForAppend(env, PriorFile(env, on, prior))
               == Ok(if prior == [] then AppendState(None, 0, []) else AppendState(Some(root), |prior|, FileHeader(env) + segs))
            && (prior == [] ==> root == Genesis())
  {
    hide LogOk, Segs, FileHeader, EnvOk, PrepareForAppend, FileBytes, AllOk;
    LogParts(env, on, prior, 0, Genesis());
    EmptyLog(env, on, 0, Genesis());
    if prior == [] {
      PrepareNew(env);
    } else {
      PrepareSealed(env, on, prior);
    }
  }

  class GICSv2Encoder {
    const env: Env
    const on: bool
    const config: Config
    const chmTime: Health.HealthMonitor
    const chmValue: Health.HealthMonitor
    var file: seq<byte>
    var fileOffset: nat
    var snapshots: seq<Snapshot>
    var nextSegmentOrdinal: nat
    var integrity: seq<byte>
    var hasEmittedHeader: bool
    var isFinalized: bool
    ghost var log: seq<Coded>

    /** The file is the header and the segments of the log, the chain stands at their root and the next
        ordinal is their number. */
    ghost predicate Valid()
      reads this
    {
      && EnvOk(env) && ConfigOk(config) && fileOffset == |file| && LogOk(env, on, log, 0, Genesis())
      && nextSegmentOrdinal == |log| && integrity == Segs(env, on, log, 0, Genesis()).1
      && !isFinalized
      && (if hasEmittedHeader then file == FileHeader(env) + Segs(env, on, log, 0, Genesis()).0
          else file == [] && log == [])
    }

    /** Every snapshot the file or the buffer holds. */
    ghost function Accepted(): seq<Snapshot>
      reads this
    {
      AllSnapshots(log) + snapshots
    }

    /** openFile, on any file it does not throw on. Only on an empty file, or on one this encoder sealed with a
        segment in it, is the encoder then fit for use. */
    constructor OpenFile(env: Env, on: bool, config: Config, existing: seq<byte>, ghost prior: seq<Coded>)
      requires EnvOk(env) && ConfigOk(config) && PrepareForAppend(env, existing).Ok?
      ensures var p := PrepareForAppend(env, existing).value;
              && file == p.file && fileOffset == |p.file| && nextSegmentOrdinal == p.segmentCount
              && integrity == (if p.prevRoot == None then Genesis() else p.prevRoot.value)
              && hasEmittedHeader == (p.prevRoot != None)
      ensures LogOk(env, on, prior, 0, Genesis()) && existing == PriorFile(env, on, prior)
          ==> Valid() && log == prior && hasEmittedHeader == (prior != [])
      ensures snapshots == [] && this.env == env && this.on == on && this.config == config
      ensures fresh(chmTime) && fresh(chmValue)
    {
      hide LogOk, Segs, FileHeader, EnvOk, PrepareForAppend, PriorFile, AllOk;
      this.env := env;
      this.on := on;
      this.config := config;
      chmTime := new Health.HealthMonitor(config.probeInterval);
      chmValue := new Health.HealthMonitor(config.probeInterval);
      isFinalized := false;
      snapshots := [];
      log := prior;
      var prepared := PrepareForAppend(env, existing).value;
      file := prepared.file;
      fileOffset := |prepared.file|;
      nextSegmentOrdinal := prepared.segmentCount;
      integrity := if prepared.prevRoot == None then Genesis() else prepared.prevRoot.value;
      hasEmittedHeader := prepared.prevRoot != None;
      new;
      if LogOk(env, on, prior, 0, Genesis()) && existing == PriorFile(env, on, prior) {
        Reopened(env, on, prior);
      }
    }

    method AddSnapshot(snapshot: Snapshot)
      requires Valid()
      modifies this
      ensures Valid() && log == old(log) && snapshots == old(snapshots) + [snapshot] && file == old(file)
      ensures Accepted() == old(Accepted()) + [snapshot] && hasEmittedHeader == old(hasEmittedHeader)
    {
      hide AllSnapshots, LogOk, Segs, FileHeader, EnvOk;
      snapshots := snapshots + [snapshot];
      assert Accepted() == old(Accepted()) + [snapshot];
    }

    method AppendToFile(data: seq<byte>)
      requires fileOffset == |file|
      modifies this`file, this`fileOffset
      ensures file == old(file) + data && fileOffset == |file|
    {
      file := WriteAt(file, fileOffset, data);
      fileOffset := fileOffset + |data|;
    }

    method EmitHeader()
      requires Valid() && !hasEmittedHeader
      modifies this`file, this`fileOffset, this`hasEmittedHeader
      ensures Valid() && hasEmittedHeader && file == FileHeader(env)
    {
      hide LogOk, Segs, FileHeader, EnvOk;
      EmptySegs(env, on, log);
      AppendToFile(FileHeader(env));
      hasEmittedHeader := true;
    }

    /** flush: the buffer is cut into groups and each becomes a segment. */
    method Flush() returns (ghost coded: seq<Coded>)
      requires Valid() && BufferFits(env, on, config, snapshots)
      modifies this, chmTime, chmValue
      ensures Valid() && snapshots == [] && log == old(log) + coded
      ensures AllSnapshots(coded) == old(snapshots) && (old(snapshots) == [] <==> coded == [])
      ensures SameGroups(coded, Grouping.Groups(old(snapshots), config.grouping))
      ensures Accepted() == old(Accepted())
      ensures hasEmittedHeader == (old(hasEmittedHeader) || old(snapshots) != [])
    {
      hide LogOk, Segs, FileHeader, EnvOk, AllSnapshots, BufferFits, GroupsFit, Grouping.Concat,
           Grouping.GroupsOk, Grouping.Groups;
      if |snapshots| == 0 {
        coded := [];
        assert old(log) + [] == old(log);
        NoSnapshots();
        NoGroups(config.grouping);
        return;
      }
      var snapshotsToProcess := snapshots;
      snapshots := [];
      if !hasEmittedHeader {
        EmitHeader();
      }
      BufferGroups(env, on, config, snapshotsToProcess);
      var groups := Grouping.BuildSegmentGroups(snapshotsToProcess, config.grouping);
      NoneEmpty(groups, config.grouping.maxItemsPerSegment);
      coded := EncodeGroups(groups);
      AllSnapshotsAppend(old(log), coded);
      NoSnapshots();
      assert AllSnapshots(log) + [] == AllSnapshots(log);
    }

    method EncodeGroups(groups: seq<seq<Snapshot>>) returns (ghost coded: seq<Coded>)
      requires Valid() && hasEmittedHeader && ConfigOk(config) && GroupsFit(env, on, config.blockSize, groups)
      requires forall i :: 0 <= i < |groups| ==> groups[i] != []
      modifies this, chmTime, chmValue
      ensures Valid() && hasEmittedHeader && snapshots == old(snapshots) && log == old(log) + coded
      ensures AllSnapshots(coded) == Grouping.Concat(groups) && SameGroups(coded, groups)
    {
      hide LogOk, Segs, FileHeader, EnvOk, Valid, GroupFits, GroupsFit, AllSnapshots, Grouping.Concat, CodedOk, RootAfter;
      coded := [];
      assert old(log) + [] == old(log);
      NoSnapshots();
      for i := 0 to |groups|
        invariant Valid() && snapshots == old(snapshots) && hasEmittedHeader
        invariant log == old(log) + coded && AllSnapshots(coded) == Grouping.Concat(groups[..i])
        invariant SameGroups(coded, groups[..i])
      {
        assert groups[..i + 1] == groups[..i] + [groups[i]];
        Grouping.ConcatSnoc(groups[..i], groups[i]);
        GroupAt(env, on, config.blockSize, groups, i);
        ghost var c := EncodeSegmentInto(groups[i]);
        AllSnapshotsAppend(coded, [c]);
        AllSnapshotsOne(c);
        coded := coded + [c];
      }
      assert groups[..|groups|] == groups;
    }

    /** One group: coded by the block drivers, wrapped under the next ordinal, chained and written. */
    method EncodeSegmentInto(group: seq<Snapshot>) returns (ghost c: Coded)
      requires Valid() && hasEmittedHeader && group != [] && ConfigOk(config) && GroupFits(env, on, config.blockSize, group)
      modifies this, chmTime, chmValue
      ensures Valid() && hasEmittedHeader && log == old(log) + [c] && snapshots == old(snapshots)
      ensures CodedOk(c, on) && c.snaps == group && nextSegmentOrdinal == old(nextSegmentOrdinal) + 1
      ensures integrity == RootAfter(env, on, c, old(nextSegmentOrdinal), old(integrity))
    {
      hide LogOk, Segs, FileHeader, EnvOk, Pipeline.InBounds, Pipeline.CutLike, PlanFits, EncodeSegment,
           Collect, WrapAll, SegmentBytes, Fits;
      var e;
      ghost var plan;
      e, plan := Pipeline.EncodeSnapshots(on, group, config.blockSize, chmTime, chmValue);
      c := Coded(group, plan);
      var segmentOrdinal := nextSegmentOrdinal;
      nextSegmentOrdinal := nextSegmentOrdinal + 1;
      var chain := new Integrity.IntegrityChain(env, Some(integrity));
      var bytes := Integrity.FinishSegment(env, segmentOrdinal, e, Collect(group).columns.ids, chain);
      var root := chain.currentHash;
      assert bytes == BytesOf(env, on, c, segmentOrdinal, integrity);
      assert root == RootAfter(env, on, c, segmentOrdinal, integrity);
      hide SegmentIndex.MakeIndex, BytesOf, RootAfter, CodedOk;
      LogParts(env, on, log, 0, Genesis());
      SegsRoot(env, on, log);
      SegsSnoc(env, on, log, c, 0, Genesis());
      LogOkSnoc(env, on, log, c, 0, Genesis());
      integrity := root;
      ghost var segs := Segs(env, on, log, 0, Genesis()).0;
      AppendToFile(bytes);
      assert FileHeader(env) + (segs + bytes) == FileHeader(env) + segs + bytes;
      log := log + [c];
    }

    /** seal: flush, then the end record. With at least one segment the file is the sealed file of the log. */
    method Seal() returns (ghost coded: seq<Coded>)
      requires Valid() && BufferFits(env, on, config, snapshots)
      modifies this, chmTime, chmValue
      ensures isFinalized && log == old(log) + coded && AllSnapshots(coded) == old(snapshots)
      ensures SameGroups(coded, Grouping.Groups(old(snapshots), config.grouping))
      ensures LogOk(env, on, log, 0, Genesis()) && Accepted() == old(Accepted()) == AllSnapshots(log)
      ensures old(hasEmittedHeader) || old(snapshots) != [] ==> file == FileBytes(env, on, log)
      ensures !old(hasEmittedHeader) && old(snapshots) == [] ==> file == EosBytes(env, Genesis())
      ensures VerifyFile(env, file) <==> old(hasEmittedHeader) || old(snapshots) != []
    {
      hide LogOk, Segs, FileHeader, EosBytes, EnvOk, AllSnapshots, BufferFits, VerifyFile, FileBytes;
      EmptyLog(env, on, 0, Genesis());
      coded := Flush();
      LogParts(env, on, log, 0, Genesis());
      assert AllSnapshots(log) + [] == AllSnapshots(log);
      AppendToFile(EosBytes(env, integrity));
      assert [] + EosBytes(env, integrity) == EosBytes(env, integrity);
      if hasEmittedHeader {
        var segs := Segs(env, on, log, 0, Genesis()).0;
        SealedIs(env, on, log, segs, integrity);
      } else {
        BareEnd(env);
      }
      isFinalized := true;
    }
  }

  lemma SealedIs(env: Env, on: bool, log: seq<Coded>, segs: seq<byte>, root: seq<byte>)
    requires EnvOk(env) && LogOk(env, on, log, 0, Genesis()) && AllOk(log, on)
    requires Segs(env, on, log, 0, Genesis()) == (segs, root)
    ensures FileHeader(env) + segs + EosBytes(env, root) == FileBytes(env, on, log)
    ensures VerifyFile(env, FileBytes(env, on, log))
  {
    hide LogOk, AllOk, Segs, FileHeader, EosBytes, EnvOk, VerifyFile, DecodeFile, DecodeLog;
    assert FileHeader(env) + segs + EosBytes(env, root) == FileHeader(env) + (segs + EosBytes(env, root));
    hide FileBytes;
    FileDecodes(env, on, log);
  }

  lemma BareEnd(env: Env)
    ensures !VerifyFile(env, EosBytes(env, Genesis()))
  {
    hide ToLE, ReadFileHeader, VerifySegs;
    FieldWidths();
  }

  lemma NoGroups(options: Grouping.Options)
    ensures options.maxSnapshotsPerSegment >= 1 ==> Grouping.Groups([], options) == []
  {
  }

  lemma NoSnapshots()
    ensures AllSnapshots([]) == [] && Grouping.Concat([]) == []
  {
  }

  lemma SegsRoot(env: Env, on: bool, log: seq<Coded>)
    requires EnvOk(env) && LogOk(env, on, log, 0, Genesis()) && AllOk(log, on)
    ensures |Segs(env, on, log, 0, Genesis()).1| == 32
  {
    hide *;
    SegsBack(env, on, log, 0, Genesis(), seq(EOS_SIZE, _ => 0));
  }

  lemma EmptySegs(env: Env, on: bool, log: seq<Coded>)
    ensures log == [] ==> Segs(env, on, log, 0, Genesis()).0 == []
  {
  }

  // ---- nonces -------------------------------------------------------------

  /** The (ordinal, stream id) pairs the cipher is keyed by, over the whole file. */
  function SealKeys(on: bool, log: seq<Coded>, ordinal: nat): seq<(nat, byte)>
    requires AllOk(log, on)
  {
    if log == [] then [] else SegmentKeys(EncodedOf(log[0], on).sections, ordinal) + SealKeys(on, log[1..], ordinal + 1)
  }

  function SegmentKeys(ss: seq<Section>, ordinal: nat): (ks: seq<(nat, byte)>)
    ensures |ks| == |ss|
    ensures forall i :: 0 <= i < |ks| ==> ks[i] == (ordinal, StreamId(ss[i].stream))
  {
    seq(|ss|, i requires 0 <= i < |ss| => (ordinal, StreamId(ss[i].stream)))
  }

  ghost predicate Distinct(ks: seq<(nat, byte)>)
  {
    forall i, j :: 0 <= i < j < |ks| ==> ks[i] != ks[j]
  }

  /** Within a segment every stream has at most one section. */
  lemma SegmentKeysDistinct(c: Coded, on: bool, ordinal: nat)
    requires CodedOk(c, on)
    ensures Distinct(SegmentKeys(EncodedOf(c, on).sections, ordinal))
  {
    hide Blocks.EncodeBlocks, Collect, Blocks.PartsOk, EncodePlan;
    var ss := EncodedOf(c, on).sections;
    StreamsDistinct(c.plan, on);
    forall i, j | 0 <= i < j < |ss|
      ensures StreamId(ss[i].stream) != StreamId(ss[j].stream)
    {
    }
  }

  lemma StreamsDistinct(p: Plan, on: bool)
    requires Blocks.PartsOk(Blocks.TIME, p.time, on) && Blocks.PartsOk(Blocks.SNAPSHOT_LEN, p.lengths, on)
    requires Blocks.PartsOk(Blocks.ITEM_ID, p.ids, on) && Blocks.PartsOk(Blocks.VALUE, p.values, on)
    requires Blocks.PartsOk(Blocks.QUANTITY, p.quantities, on)
    ensures var ss := EncodePlan(p, on); forall i, j :: 0 <= i < j < |ss| ==> ss[i].stream != ss[j].stream
  {
    hide Blocks.EncodeBlocks, Blocks.PartsOk;
  }

  /** No key is ever used twice in a file, however often it was reopened. */
  lemma {:induction false} KeysNeverRecur(on: bool, log: seq<Coded>, ordinal: nat)
    requires AllOk(log, on)
    ensures Distinct(SealKeys(on, log, ordinal))
    ensures forall k :: k in SealKeys(on, log, ordinal) ==> ordinal <= k.0 < ordinal + |log|
  {
    hide EncodedOf, CodedOk;
    if log != [] {
      KeysNeverRecur(on, log[1..], ordinal + 1);
      SegmentKeysDistinct(log[0], on, ordinal);
      var first, rest := SegmentKeys(EncodedOf(log[0], on).sections, ordinal), SealKeys(on, log[1..], ordinal + 1);
      assert forall i :: 0 <= i < |rest| ==> rest[i] in rest;
    }
  }
}
