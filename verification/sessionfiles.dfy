/** Sessions whose parts are real files: the codec of a session (src/gics/rotating-encoder.ts) filled in with the
    file format (src/gics/encode.ts, src/gics/decode.ts). */
module SessionFiles {
  import opened Bytes
  import opened Snapshots
  import opened Container
  import opened GicsFile
  import opened Rotation
  import Append
  import Grouping

  /** How each part was cut into segments and coded: any choice, by part number and content. */
  type Planner = (nat, seq<Snapshot>) -> seq<Coded>

  /** The plan of a part is one the encoder can have made: it fits the format and holds the part's snapshots. */
  ghost predicate Planned(env: Env, on: bool, plan: Planner, number: nat, part: seq<Snapshot>)
  {
    LogOk(env, on, plan(number, part), 0, GicsFile.Genesis()) && AllSnapshots(plan(number, part)) == part
  }

  /** extractRootHashHexFromEos */
  function RootInEos(file: seq<byte>): Option<seq<byte>>
  {
    if |file| < EOS_SIZE || file[|file| - EOS_SIZE] != 0xFF then None
    else Some(file[|file| - EOS_SIZE + 1..|file| - EOS_SIZE + 33])
  }

  function AnswerOf(r: Result<seq<Snapshot>>): Option<seq<Snapshot>>
  {
    match r case Ok(xs) => Some(xs) case Err(_) => None
  }

  /** A sealed part; a part without a plan is a bare end record, which nothing reads. */
  ghost function PartFile(env: Env, on: bool, plan: Planner, number: nat, part: seq<Snapshot>): seq<byte>
  {
    if Planned(env, on, plan, number, part) then FileBytes(env, on, plan(number, part))
    else EosBytes(env, GicsFile.Genesis())
  }

  ghost function GicsCodec(env: Env, on: bool, plan: Planner): Codec
  {
    Codec((n, x) => PartFile(env, on, plan, n, x), file => AnswerOf(DecodeFile(env, file)), file => RootInEos(file),
          file => VerifyFile(env, file), file => env.sha(file))
  }

  /** The end record names the root of the chain through the part's segments. */
  lemma PartRoot(env: Env, on: bool, plan: Planner, number: nat, part: seq<Snapshot>)
    requires EnvOk(env) && Planned(env, on, plan, number, part)
    ensures LogOk(env, on, plan(number, part), 0, GicsFile.Genesis()) && AllOk(plan(number, part), on)
    ensures RootInEos(PartFile(env, on, plan, number, part))
         == Some(Segs(env, on, plan(number, part), 0, GicsFile.Genesis()).1)
  {
    var log := plan(number, part);
    hide LogOk, AllOk, Segs, FileBytes, EosOk, EnvOk, ReadFileHeader, FileHeader;
    LogParts(env, on, log, 0, GicsFile.Genesis());
    SealedShape(env, on, log);
    var data := FileBytes(env, on, log);
    EosSays(env, data, Segs(env, on, log, 0, GicsFile.Genesis()).1);
  }

  lemma EosSays(env: Env, data: seq<byte>, root: seq<byte>)
    requires |data| >= EOS_SIZE && EosOk(env, data, root)
    ensures RootInEos(data) == Some(root)
  {
    var eos := data[|data| - EOS_SIZE..];
    assert eos[1..33] == data[|data| - EOS_SIZE + 1..|data| - EOS_SIZE + 33];
  }

  lemma BareEos(env: Env)
    requires EnvOk(env)
    ensures var file := EosBytes(env, GicsFile.Genesis());
            RootInEos(file).Some? && !VerifyFile(env, file) && DecodeFile(env, file).Err?
  {
    hide ToLE, FromLE, VerifySegs, DecodeSegs;
    EosBack(env, GicsFile.Genesis(), []);
  }

  predicate AllExact(log: seq<Coded>) { forall i :: 0 <= i < |log| ==> Exact(log[i]) }

  predicate SomeTooWide(log: seq<Coded>) { exists i :: 0 <= i < |log| && TooWide(log[i]) }

  /** What the readers make of a part's file. */
  lemma PartExact(env: Env, on: bool, plan: Planner, number: nat, part: seq<Snapshot>)
    requires EnvOk(env)
    ensures var c, planned := GicsCodec(env, on, plan), Planned(env, on, plan, number, part);
            var file := c.encode(number, part);
            && c.root(file).Some? && (c.verify(file) <==> planned)
            && (c.decode(file).Some? ==> |c.decode(file).value| == |part|)
            && (c.decode(file).Some? <==> planned && !SomeTooWide(plan(number, part)))
            && (c.decode(file) == Some(part) <==> planned && AllExact(plan(number, part)))
  {
    hide LogOk, AllOk, VerifyFile, DecodeFile, FileBytes, EosBytes, EnvOk, Exact, TooWide, RootInEos;
    if Planned(env, on, plan, number, part) {
      var log := plan(number, part);
      PartRoot(env, on, plan, number, part);
      FileExact(env, on, log);
      FileDecodes(env, on, log);
      DecodeLogExact(log, on);
      VerifiedMayNotDecode(env, on, log);
    } else {
      BareEos(env);
    }
  }

  /** The real format is a codec sessions work with, whatever its hash. */
  lemma GicsCodecOk(env: Env, on: bool, plan: Planner)
    requires EnvOk(env)
    ensures CodecOk(GicsCodec(env, on, plan))
  {
    var c := GicsCodec(env, on, plan);
    hide GicsCodec;
    forall n: nat, x
      ensures c.root(c.encode(n, x)).Some?
      ensures c.decode(c.encode(n, x)).Some? ==> |c.decode(c.encode(n, x)).value| == |x|
    {
      PartExact(env, on, plan, n, x);
    }
  }

  ghost predicate AllPlanned(env: Env, on: bool, plan: Planner, parts: Parts, live: seq<Entry>)
  {
    forall i :: 0 <= i < |live| ==> Planned(env, on, plan, live[i].number, PartOf(parts, live[i]))
  }

  predicate AllPartsExact(plan: Planner, parts: Parts, live: seq<Entry>)
  {
    forall i :: 0 <= i < |live| ==> AllExact(plan(live[i].number, PartOf(parts, live[i])))
  }

  predicate SomePartTooWide(plan: Planner, parts: Parts, live: seq<Entry>)
  {
    exists i :: 0 <= i < |live| && SomeTooWide(plan(live[i].number, PartOf(parts, live[i])))
  }

  lemma PartsExact(env: Env, on: bool, plan: Planner, parts: Parts, live: seq<Entry>)
    requires EnvOk(env) && AllPlanned(env, on, plan, parts, live)
    ensures AllRead(GicsCodec(env, on, plan), parts, live) <==> AllPartsExact(plan, parts, live)
    ensures AllAnswer(GicsCodec(env, on, plan), parts, live) <==> !SomePartTooWide(plan, parts, live)
  {
    hide GicsCodec, PartOf, AllExact, SomeTooWide, Planned, EnvOk;
    var c := GicsCodec(env, on, plan);
    forall i | 0 <= i < |live|
      ensures PartReads(c, live[i].number, PartOf(parts, live[i]))
         <==> AllExact(plan(live[i].number, PartOf(parts, live[i])))
      ensures c.verify(c.encode(live[i].number, PartOf(parts, live[i])))
      ensures c.decode(c.encode(live[i].number, PartOf(parts, live[i]))).Some?
         <==> !SomeTooWide(plan(live[i].number, PartOf(parts, live[i])))
    {
      PartExact(env, on, plan, live[i].number, PartOf(parts, live[i]));
    }
  }

  /** The session theorem. Once sealed, a session of real files gives back every snapshot handed in if and only
      if every segment of every part is exact, and a strict reader fails if and only if a segment is too wide. */
  lemma SessionExact(env: Env, on: bool, plan: Planner, disk: Disk, parts: Parts, files: seq<Entry>, number: nat,
                     root: Option<Hash>, max: int)
    requires EnvOk(env) && ManifestOk(GicsCodec(env, on, plan), disk, parts, files, number, root, max)
    requires AllPlanned(env, on, plan, parts, Live(files))
    ensures var r := ReadSession(GicsCodec(env, on, plan), disk, files, root);
            && (r == Ok(Committed(parts, Live(files))) <==> AllPartsExact(plan, parts, Live(files)))
            && (r.Err? <==> SomePartTooWide(plan, parts, Live(files)))
  {
    hide *;
    var c := GicsCodec(env, on, plan);
    GicsCodecOk(env, on, plan);
    ManifestParts(c, disk, parts, files, number, root, max);
    ReaderExact(c, disk, parts, files);
    PartsExact(env, on, plan, parts, Live(files));
  }

  // ---- parts from the encoder ---------------------------------------------

  ghost predicate BatchesFit(env: Env, on: bool, config: Append.Config, batches: seq<seq<Snapshot>>)
    requires Append.ConfigOk(config)
  {
    forall i :: 0 <= i < |batches| ==> Append.BufferFits(env, on, config, batches[i])
  }

  /** A log of the part: well coded, fitting the format, and holding its snapshots. */
  ghost predicate LogOf(env: Env, on: bool, log: seq<Coded>, part: seq<Snapshot>)
  {
    LogOk(env, on, log, 0, GicsFile.Genesis()) && AllSnapshots(log) == part
  }

  lemma NothingEncoded(env: Env, on: bool, config: Append.Config)
    requires Append.ConfigOk(config)
    ensures LogOk(env, on, [], 0, GicsFile.Genesis()) && Append.PriorFile(env, on, []) == []
    ensures Append.PrepareForAppend(env, []).Ok? && Append.BufferFits(env, on, config, [])
    ensures AllSnapshots([]) == [] && Grouping.Concat([]) == []
  {
    Append.PrepareNew(env);
  }

  /** A part's life: its file is opened empty, the snapshots come in, batch by batch they are flushed, and it is sealed. */
  method EncodePart(env: Env, on: bool, config: Append.Config, batches: seq<seq<Snapshot>>)
    returns (file: seq<byte>, ghost log: seq<Coded>)
    requires EnvOk(env) && Append.ConfigOk(config) && BatchesFit(env, on, config, batches)
    requires Grouping.Concat(batches) != []
    ensures LogOf(env, on, log, Grouping.Concat(batches)) && AllOk(log, on) && file == FileBytes(env, on, log)
  {
    hide LogOk, AllOk, FileBytes, EnvOk, AllSnapshots, Grouping.Concat, Append.BufferFits, VerifyFile, Segs, FileHeader;
    NothingEncoded(env, on, config);
    var encoder := new Append.GICSv2Encoder.OpenFile(env, on, config, [], []);
    for i := 0 to |batches|
      invariant fresh(encoder) && fresh(encoder.chmTime) && fresh(encoder.chmValue)
      invariant encoder.env == env && encoder.on == on && encoder.config == config
      invariant encoder.Valid() && encoder.snapshots == [] && AllSnapshots(encoder.log) == Grouping.Concat(batches[..i])
      invariant encoder.hasEmittedHeader == (Grouping.Concat(batches[..i]) != [])
    {
      assert batches[..i + 1] == batches[..i] + [batches[i]];
      Grouping.ConcatSnoc(batches[..i], batches[i]);
      FlushBatch(encoder, batches[i]);
    }
    assert batches[..|batches|] == batches;
    ghost var before := encoder.log;
    ghost var coded := encoder.Seal();
    Append.AllSnapshotsAppend(before, coded);
    log := encoder.log;
    LogParts(env, on, log, 0, GicsFile.Genesis());
    assert Grouping.Concat(batches) + [] == Grouping.Concat(batches);
    file := encoder.file;
  }

  method FlushBatch(encoder: Append.GICSv2Encoder, batch: seq<Snapshot>)
    requires encoder.Valid() && encoder.snapshots == []
    requires Append.BufferFits(encoder.env, encoder.on, encoder.config, batch)
    modifies encoder, encoder.chmTime, encoder.chmValue
    ensures encoder.Valid() && encoder.snapshots == []
    ensures AllSnapshots(encoder.log) == old(AllSnapshots(encoder.log)) + batch
    ensures encoder.hasEmittedHeader == (old(encoder.hasEmittedHeader) || batch != [])
  {
    hide LogOk, EnvOk, AllSnapshots, Append.BufferFits, Segs, FileHeader;
    for i := 0 to |batch|
      invariant encoder.Valid() && encoder.snapshots == batch[..i] && encoder.log == old(encoder.log)
      invariant encoder.hasEmittedHeader == old(encoder.hasEmittedHeader)
    {
      assert batch[..i + 1] == batch[..i] + [batch[i]];
      encoder.AddSnapshot(batch[i]);
    }
    assert batch[..|batch|] == batch;
    ghost var coded := encoder.Flush();
    Append.AllSnapshotsAppend(old(encoder.log), coded);
  }

  /** The parts of a session as the encoder wrote them, numbered from 1. */
  function PlanOf(logs: seq<seq<Coded>>): Planner
  {
    (n, x) => if 1 <= n <= |logs| then logs[n - 1] else []
  }

  function PlannedAt(logs: seq<seq<Coded>>, number: nat): seq<Coded>
  {
    if 1 <= number <= |logs| then logs[number - 1] else []
  }

  /** Logs of the encoder are plans the session theorem takes, whichever parts are still live. */
  lemma EncodedPlanned(env: Env, on: bool, logs: seq<seq<Coded>>, parts: Parts, live: seq<Entry>)
    requires forall i :: 0 <= i < |live| ==> LogOf(env, on, PlannedAt(logs, live[i].number), PartOf(parts, live[i]))
    ensures AllPlanned(env, on, PlanOf(logs), parts, live)
  {
    hide LogOk, AllSnapshots, PartOf;
    assert forall i :: 0 <= i < |live| ==> LogOf(env, on, PlannedAt(logs, live[i].number), PartOf(parts, live[i]));
  }

  ghost predicate WorkOk(env: Env, on: bool, config: Append.Config, work: seq<seq<seq<Snapshot>>>)
    requires Append.ConfigOk(config)
  {
    forall i :: 0 <= i < |work| ==> BatchesFit(env, on, config, work[i]) && Grouping.Concat(work[i]) != []
  }

  function Contents(work: seq<seq<seq<Snapshot>>>): (contents: seq<seq<Snapshot>>)
    ensures |contents| == |work|
  {
    seq(|work|, i requires 0 <= i < |work| => Grouping.Concat(work[i]))
  }

  /** A log for each part of the session. */
  ghost predicate LogsOf(env: Env, on: bool, logs: seq<seq<Coded>>, contents: seq<seq<Snapshot>>)
  {
    |logs| == |contents| && forall i :: 0 <= i < |logs| ==> LogOf(env, on, logs[i], contents[i])
  }

  /** Every part of a session, batch by batch through the encoder. */
  method EncodeSession(env: Env, on: bool, config: Append.Config, work: seq<seq<seq<Snapshot>>>)
    returns (files: seq<seq<byte>>, ghost logs: seq<seq<Coded>>)
    requires EnvOk(env) && Append.ConfigOk(config) && WorkOk(env, on, config, work)
    ensures LogsOf(env, on, logs, Contents(work)) && |files| == |work|
    ensures forall i :: 0 <= i < |work| ==> files[i] == PartFile(env, on, PlanOf(logs), i + 1, Contents(work)[i])
  {
    hide EnvOk, BatchesFit, Grouping.Concat, LogOf, LogOk, FileBytes, AllOk;
    files, logs := [], [];
    for n := 0 to |work|
      invariant |files| == |logs| == n
      invariant forall i :: 0 <= i < n ==> LogOf(env, on, logs[i], Contents(work)[i])
      invariant forall i :: 0 <= i < n ==> files[i] == FileOf(env, on, logs[i])
    {
      var file, log := EncodePart(env, on, config, work[n]);
      files, logs := files + [file], logs + [log];
    }
    forall i | 0 <= i < |work|
      ensures files[i] == PartFile(env, on, PlanOf(logs), i + 1, Contents(work)[i])
    {
      EncodedFile(env, on, logs, i, Contents(work)[i]);
    }
  }

  ghost function FileOf(env: Env, on: bool, log: seq<Coded>): seq<byte>
  {
    if AllOk(log, on) then FileBytes(env, on, log) else []
  }

  lemma EncodedFile(env: Env, on: bool, logs: seq<seq<Coded>>, i: nat, part: seq<Snapshot>)
    requires i < |logs| && LogOf(env, on, logs[i], part)
    ensures PartFile(env, on, PlanOf(logs), i + 1, part) == FileOf(env, on, logs[i])
  {
    hide FileBytes, AllOk;
    LogParts(env, on, logs[i], 0, GicsFile.Genesis());
    hide LogOk;
  }

  /** The session theorem for what the encoder wrote: parts handed in one after the other come back whole if and only if
      every segment of every log is exact, and nothing comes back if and only if a segment is too wide. */
  lemma EncodedSessionExact(env: Env, on: bool, logs: seq<seq<Coded>>, contents: seq<seq<Snapshot>>, max: int)
    requires EnvOk(env) && PartsWithin(contents, max) && LogsOf(env, on, logs, contents)
    ensures var c := GicsCodec(env, on, PlanOf(logs));
            var s := PartByPart(c, contents);
            var r := ReadSession(c, s.disk, s.files, LastRoot(Live(s.files)));
            && (r == Ok(Grouping.Concat(contents)) <==> forall i :: 0 <= i < |logs| ==> AllExact(logs[i]))
            && (r.Err? <==> exists i :: 0 <= i < |logs| && SomeTooWide(logs[i]))
  {
    hide *;
    var c := GicsCodec(env, on, PlanOf(logs));
    GicsCodecOk(env, on, PlanOf(logs));
    PartByPartOk(c, contents, max);
    var s := PartByPart(c, contents);
    var live := Live(s.files);
    StandingParts(c, s, contents, max);
    NumberedEncoded(env, on, logs, s.parts, live, contents);
    EncodedPlanned(env, on, logs, s.parts, live);
    SessionExact(env, on, PlanOf(logs), s.disk, s.parts, s.files, |contents|, LastRoot(live), max);
    CommittedIsAll(s.parts, live, contents);
    NumberedExact(logs, s.parts, live, contents);
  }

  lemma NumberedEncoded(env: Env, on: bool, logs: seq<seq<Coded>>, parts: Parts, live: seq<Entry>,
                        contents: seq<seq<Snapshot>>)
    requires Numbered(parts, live, contents) && LogsOf(env, on, logs, contents)
    ensures |logs| == |contents|
    ensures forall i :: 0 <= i < |live| ==> LogOf(env, on, PlannedAt(logs, live[i].number), PartOf(parts, live[i]))
  {
    hide LogOf;
  }

  lemma NumberedExact(logs: seq<seq<Coded>>, parts: Parts, live: seq<Entry>, contents: seq<seq<Snapshot>>)
    requires Numbered(parts, live, contents) && |logs| == |contents|
    ensures AllPartsExact(PlanOf(logs), parts, live) <==> forall i :: 0 <= i < |logs| ==> AllExact(logs[i])
    ensures SomePartTooWide(PlanOf(logs), parts, live) <==> exists i :: 0 <= i < |logs| && SomeTooWide(logs[i])
  {
    hide AllExact, SomeTooWide;
    var plan := PlanOf(logs);
    forall i | 0 <= i < |live|
      ensures plan(live[i].number, PartOf(parts, live[i])) == logs[i]
    {
    }
    assert forall i :: 0 <= i < |logs| ==> live[i].number == i + 1;
  }

  lemma {:induction false} CommittedIsAll(parts: Parts, live: seq<Entry>, contents: seq<seq<Snapshot>>)
    requires Numbered(parts, live, contents)
    ensures Committed(parts, live) == Grouping.Concat(contents)
  {
    if live != [] {
      var n := |live| - 1;
      assert Numbered(parts, live[..n], contents[..n]);
      CommittedIsAll(parts, live[..n], contents[..n]);
    }
  }

  lemma FirstFiles(env: Env, on: bool, logs: seq<seq<Coded>>, part: seq<Snapshot>)
    requires |logs| >= 2 && logs[0] == logs[1] && LogOf(env, on, logs[0], part)
    ensures PartFile(env, on, PlanOf(logs), 1, part) == PartFile(env, on, PlanOf(logs), 2, part)
  {
    hide *;
    EncodedFile(env, on, logs, 0, part);
    EncodedFile(env, on, logs, 1, part);
  }

  /** The same snapshot in three parts, the first two coded the same way: they are one file with one root, and the chain
      of the manifest closes a loop. */
  lemma EqualPartsLoop(env: Env, on: bool, logs: seq<seq<Coded>>, snapshot: Snapshot)
    requires EnvOk(env) && LogsOf(env, on, logs, [[snapshot], [snapshot], [snapshot]]) && logs[0] == logs[1]
    ensures var c := GicsCodec(env, on, PlanOf(logs));
            && CodecOk(c) && c.root(c.encode(1, [snapshot])) == c.root(c.encode(2, [snapshot]))
            && !NoLoop(Live(PartByPart(c, [[snapshot], [snapshot], [snapshot]]).files))
  {
    hide LogOf, EnvOk, CodecOk, PartFile, RootInEos, VerifyFile, DecodeFile;
    var c := GicsCodec(env, on, PlanOf(logs));
    GicsCodecOk(env, on, PlanOf(logs));
    FirstFiles(env, on, logs, [snapshot]);
    assert c.root(c.encode(1, [snapshot])) == c.root(c.encode(2, [snapshot]));
    hide GicsCodec, LogsOf;
    LoopOfThree(c, snapshot);
  }
}
