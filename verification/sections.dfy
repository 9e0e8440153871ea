/** src/gics/stream-section.ts: the bytes of a stream section, and the parser that finds it again. */
module Sections {
  import opened Bytes

  /** One block of the manifest. */
  datatype Entry = Entry(codec: byte, nItems: nat, payloadLen: nat, flags: byte)

  /** `tag` is empty unless the file is encrypted. */
  datatype RawSection = RawSection(
    streamId: byte,
    outer: byte,
    uncompressedLen: nat,
    hash: seq<byte>,
    tag: seq<byte>,
    manifest: seq<Entry>,
    payload: seq<byte>)

  function EntryBytes(e: Entry): (s: seq<byte>)
    ensures |s| == 10
  {
    [e.codec] + (ToLE(e.nItems, 4) + (ToLE(e.payloadLen, 4) + [e.flags]))
  }

  function ManifestBytes(m: seq<Entry>): (s: seq<byte>)
    ensures |s| == 10 * |m|
  {
    if m == [] then [] else EntryBytes(m[0]) + ManifestBytes(m[1..])
  }

  function SectionBytes(s: RawSection): seq<byte>
  {
    [s.streamId, s.outer] + (ToLE(|s.manifest|, 2) + (ToLE(s.uncompressedLen, 4) + (ToLE(|s.payload|, 4)
    + (s.hash + (s.tag + (ManifestBytes(s.manifest) + s.payload))))))
  }

  function SectionsBytes(rs: seq<RawSection>): seq<byte>
  {
    if rs == [] then [] else SectionBytes(rs[0]) + SectionsBytes(rs[1..])
  }

  predicate EntryOk(e: Entry)
  {
    e.nItems < 0x1_0000_0000 && e.payloadLen < 0x1_0000_0000
  }

  /** Every field fits its width. */
  predicate SectionOk(s: RawSection, encrypted: bool)
  {
    && |s.manifest| < 0x1_0000 && s.uncompressedLen < 0x1_0000_0000 && |s.payload| < 0x1_0000_0000
    && |s.hash| == 32 && |s.tag| == (if encrypted then 16 else 0)
    && forall i :: 0 <= i < |s.manifest| ==> EntryOk(s.manifest[i])
  }

  // ---- parsing ------------------------------------------------------------

  function ReadEntry(s: seq<byte>): Entry
    requires |s| >= 10
  {
    Entry(s[0], FromLE(s[1..5]), FromLE(s[5..9]), s[9])
  }

  function ReadManifest(s: seq<byte>, count: nat): (m: seq<Entry>)
    requires |s| >= 10 * count
    ensures |m| == count
  {
    if count == 0 then [] else [ReadEntry(s)] + ReadManifest(s[10..], count - 1)
  }

  /** The section at the front of `s` and its size. */
  function ReadSection(s: seq<byte>, encrypted: bool): (r: Result<(RawSection, nat)>)
    ensures r.Ok? ==> 12 <= r.value.1 <= |s|
  {
    if |s| < 12 then Err(Truncated)
    else
      var blockCount := FromLE(s[2..4]);
      var uncompressedLen, compressedLen := FromLE(s[4..8]), FromLE(s[8..12]);
      if |s| < 44 then Err(Truncated)
      else
        var tagEnd := if encrypted then 60 else 44;
        if |s| < tagEnd then Err(Truncated)
        else if |s| < tagEnd + 10 * blockCount then Err(Truncated)
        else
          var body := s[tagEnd + 10 * blockCount..];
          if |body| < compressedLen then Err(Truncated)
          else
            Ok((RawSection(s[0], s[1], uncompressedLen, s[12..44], s[44..tagEnd],
                           ReadManifest(s[tagEnd..], blockCount), body[..compressedLen]),
                tagEnd + 10 * blockCount + compressedLen))
  }

  lemma ReadEntryBack(e: Entry, rest: seq<byte>)
    requires EntryOk(e)
    ensures ReadEntry(EntryBytes(e) + rest) == e
  {
    hide ToLE, FromLE;
    FieldWidths();
    FromLEToLE(e.nItems, 4);
    FromLEToLE(e.payloadLen, 4);
    var s := EntryBytes(e) + rest;
    assert s[1..5] == ToLE(e.nItems, 4) && s[5..9] == ToLE(e.payloadLen, 4);
  }

  lemma {:induction false} ReadManifestBack(m: seq<Entry>, rest: seq<byte>)
    requires forall i :: 0 <= i < |m| ==> EntryOk(m[i])
    ensures ReadManifest(ManifestBytes(m) + rest, |m|) == m
  {
    hide EntryBytes, ReadEntry, EntryOk;
    if m != [] {
      var s := ManifestBytes(m) + rest;
      assert s == EntryBytes(m[0]) + (ManifestBytes(m[1..]) + rest);
      ReadEntryBack(m[0], ManifestBytes(m[1..]) + rest);
      assert s[10..] == ManifestBytes(m[1..]) + rest;
      ReadManifestBack(m[1..], rest);
    }
  }

  /** The fixed part in front of a section reads back. */
  lemma ReadFixedBack(s: RawSection, encrypted: bool, tail: seq<byte>)
    requires SectionOk(s, encrypted)
    ensures var data := [s.streamId, s.outer] + (ToLE(|s.manifest|, 2) + (ToLE(s.uncompressedLen, 4)
                        + (ToLE(|s.payload|, 4) + (s.hash + (s.tag + tail)))));
            var tagEnd := if encrypted then 60 else 44;
            && |data| == tagEnd + |tail| && data[0] == s.streamId && data[1] == s.outer
            && FromLE(data[2..4]) == |s.manifest| && FromLE(data[4..8]) == s.uncompressedLen
            && FromLE(data[8..12]) == |s.payload| && data[12..44] == s.hash && data[44..tagEnd] == s.tag
            && data[tagEnd..] == tail
  {
    hide ToLE, FromLE;
    FieldWidths();
    FromLEToLE(|s.manifest|, 2);
    FromLEToLE(s.uncompressedLen, 4);
    FromLEToLE(|s.payload|, 4);
    var data := [s.streamId, s.outer] + (ToLE(|s.manifest|, 2) + (ToLE(s.uncompressedLen, 4)
                + (ToLE(|s.payload|, 4) + (s.hash + (s.tag + tail)))));
    assert data[2..4] == ToLE(|s.manifest|, 2);
    assert data[4..8] == ToLE(s.uncompressedLen, 4);
    assert data[8..12] == ToLE(|s.payload|, 4);
  }

  /** A section is found again whatever follows it. */
  lemma ReadSectionBack(s: RawSection, encrypted: bool, rest: seq<byte>)
    requires SectionOk(s, encrypted)
    ensures ReadSection(SectionBytes(s) + rest, encrypted) == Ok((s, |SectionBytes(s)|))
  {
    hide ToLE, FromLE, ManifestBytes, ReadManifest;
    var tail := ManifestBytes(s.manifest) + (s.payload + rest);
    ReadFixedBack(s, encrypted, tail);
    ReadManifestBack(s.manifest, s.payload + rest);
    var data := SectionBytes(s) + rest;
    assert data == [s.streamId, s.outer] + (ToLE(|s.manifest|, 2) + (ToLE(s.uncompressedLen, 4)
                   + (ToLE(|s.payload|, 4) + (s.hash + (s.tag + tail)))));
    var tagEnd := if encrypted then 60 else 44;
    assert data[tagEnd + 10 * |s.manifest|..] == s.payload + rest;
  }

  /** extractSections over the next `n` bytes. */
  function ReadSections(data: seq<byte>, n: nat, encrypted: bool): Result<seq<RawSection>>
    decreases n
  {
    if n == 0 then Ok([])
    else if data == [] then Err(Truncated)
    else
      match ReadSection(data, encrypted)
      case Err(e) => Err(e)
      case Ok((s, size)) =>
        if size > n then Err(IntegrityMismatch)
        else
          match ReadSections(data[size..], n - size, encrypted)
          case Err(e) => Err(e)
          case Ok(rest) => Ok([s] + rest)
  }

  lemma OneSectionBack(s: RawSection, encrypted: bool, tail: seq<byte>, n: nat)
    requires SectionOk(s, encrypted)
    ensures ReadSections(SectionBytes(s) + tail, |SectionBytes(s)| + n, encrypted)
         == Follow([s], ReadSections(tail, n, encrypted))
  {
    ReadSectionBack(s, encrypted, tail);
    hide SectionBytes, ReadSection, SectionOk;
    assert (SectionBytes(s) + tail)[|SectionBytes(s)|..] == tail;
  }

  function Follow(front: seq<RawSection>, rest: Result<seq<RawSection>>): Result<seq<RawSection>>
  {
    match rest
    case Err(e) => Err(e)
    case Ok(rs) => Ok(front + rs)
  }

  lemma {:induction false} ReadSectionsBack(rs: seq<RawSection>, encrypted: bool, rest: seq<byte>)
    requires forall i :: 0 <= i < |rs| ==> SectionOk(rs[i], encrypted)
    ensures ReadSections(SectionsBytes(rs) + rest, |SectionsBytes(rs)|, encrypted) == Ok(rs)
  {
    hide SectionBytes, ReadSection, SectionOk;
    if rs != [] {
      var tail := SectionsBytes(rs[1..]) + rest;
      assert SectionsBytes(rs) + rest == SectionBytes(rs[0]) + tail;
      OneSectionBack(rs[0], encrypted, tail, |SectionsBytes(rs[1..])|);
      ReadSectionsBack(rs[1..], encrypted, rest);
      assert rs == [rs[0]] + rs[1..];
    }
  }

  /** What the hash chain absorbs for a section. */
  function HashInput(s: RawSection): seq<byte>
  {
    [s.streamId] + (ToLE(|s.manifest|, 2) + (ManifestBytes(s.manifest) + s.payload))
  }

  // ---- the loops ----------------------------------------------------------

  /** serializeManifest */
  method SerializeManifest(manifest: seq<Entry>) returns (buffer: seq<byte>)
    ensures buffer == ManifestBytes(manifest)
  {
    hide EntryBytes;
    buffer := [];
    for i := 0 to |manifest|
      invariant buffer + ManifestBytes(manifest[i..]) == ManifestBytes(manifest)
    {
      var entry := manifest[i];
      assert manifest[i..][0] == entry && manifest[i..][1..] == manifest[i + 1..];
      buffer := buffer + EntryBytes(entry);
    }
    assert manifest[|manifest|..] == [];
  }

  /** serialize, all sections one behind the other. */
  method SerializeAll(sections: seq<RawSection>) returns (buffer: seq<byte>)
    ensures buffer == SectionsBytes(sections)
  {
    hide SectionBytes;
    buffer := [];
    for i := 0 to |sections|
      invariant buffer + SectionsBytes(sections[i..]) == SectionsBytes(sections)
    {
      assert sections[i..][0] == sections[i] && sections[i..][1..] == sections[i + 1..];
      var section := Serialize(sections[i]);
      buffer := buffer + section;
    }
    assert sections[|sections|..] == [];
  }

  method Serialize(s: RawSection) returns (buffer: seq<byte>)
    ensures buffer == SectionBytes(s)
  {
    hide ManifestBytes, ToLE;
    buffer := [s.streamId, s.outer];
    buffer := buffer + ToLE(|s.manifest|, 2) + ToLE(s.uncompressedLen, 4) + ToLE(|s.payload|, 4);
    buffer := buffer + s.hash;
    if s.tag != [] {
      buffer := buffer + s.tag;
    }
    var manifest := SerializeManifest(s.manifest);
    buffer := buffer + manifest + s.payload;
  }

  lemma {:induction false} ReadManifestSnoc(s: seq<byte>, count: nat)
    requires |s| >= 10 * count + 10
    ensures ReadManifest(s, count + 1) == ReadManifest(s, count) + [ReadEntry(s[10 * count..])]
  {
    hide ReadEntry;
    if count > 0 {
      ReadManifestSnoc(s[10..], count - 1);
      assert s[10..][10 * (count - 1)..] == s[10 * count..];
    }
  }

  /** The manifest loop of deserialize: each entry is checked for before it is read. */
  method DeserializeManifest(data: seq<byte>, start: nat, blockCount: nat) returns (r: Result<seq<Entry>>)
    requires start <= |data|
    ensures r == if start + 10 * blockCount > |data| then Err(Truncated)
                 else Ok(ReadManifest(data[start..], blockCount))
  {
    hide ReadEntry;
    var pos := start;
    var manifest: seq<Entry> := [];
    for i := 0 to blockCount
      invariant pos == start + 10 * i <= |data| && manifest == ReadManifest(data[start..], i)
    {
      if pos + 10 > |data| {
        return Err(Truncated);
      }
      ReadManifestSnoc(data[start..], i);
      assert data[start..][10 * i..] == data[pos..];
      manifest := manifest + [ReadEntry(data[pos..])];
      pos := pos + 10;
    }
    r := Ok(manifest);
  }

  /** deserialize */
  method Deserialize(data: seq<byte>, offset: nat, isEncrypted: bool) returns (r: Result<(RawSection, nat)>)
    requires offset <= |data|
    ensures r == ReadSection(data[offset..], isEncrypted)
  {
    hide ReadManifest, FromLE;
    ghost var s := data[offset..];
    if offset + 12 > |data| {
      return Err(Truncated);
    }
    var streamId, outer := data[offset], data[offset + 1];
    var blockCount := FromLE(data[offset + 2..offset + 4]);
    var uncompressedLen := FromLE(data[offset + 4..offset + 8]);
    var compressedLen := FromLE(data[offset + 8..offset + 12]);
    assert s[2..4] == data[offset + 2..offset + 4] && s[4..8] == data[offset + 4..offset + 8];
    assert s[8..12] == data[offset + 8..offset + 12];
    var pos := offset + 12;
    if pos + 32 > |data| {
      return Err(Truncated);
    }
    var hash := data[pos..pos + 32];
    assert hash == s[12..44];
    pos := pos + 32;
    var tag: seq<byte> := [];
    if isEncrypted {
      if pos + 16 > |data| {
        return Err(Truncated);
      }
      tag := data[pos..pos + 16];
      pos := pos + 16;
    }
    assert tag == s[44..pos - offset];
    var manifest := DeserializeManifest(data, pos, blockCount);
    if manifest.Err? {
      return Err(Truncated);
    }
    assert data[pos..] == s[pos - offset..];
    pos := pos + 10 * blockCount;
    assert data[pos..] == s[pos - offset..];
    if pos + compressedLen > |data| {
      return Err(Truncated);
    }
    assert data[pos..pos + compressedLen] == s[pos - offset..][..compressedLen];
    r := Ok((RawSection(streamId, outer, uncompressedLen, hash, tag, manifest.value, data[pos..pos + compressedLen]),
             pos + compressedLen - offset));
  }

  /** What is left to read at a position. */
  ghost predicate Pending(data: seq<byte>, start: nat, end: nat, encrypted: bool, pos: nat, sections: seq<RawSection>)
  {
    start <= pos <= |data| && (pos <= end || pos == start) &&
    (start <= |data| && ReadSections(data[start..], Span(start, end), encrypted)
       == Follow(sections, ReadSections(data[pos..], Span(pos, end), encrypted)))
  }

  function Span(pos: nat, end: nat): nat { if end >= pos then end - pos else 0 }

  lemma PendingStart(data: seq<byte>, start: nat, end: nat, encrypted: bool)
    requires start <= |data|
    ensures Pending(data, start, end, encrypted, start, [])
  {
    hide ReadSections;
    var r := ReadSections(data[start..], Span(start, end), encrypted);
    if r.Ok? {
      assert [] + r.value == r.value;
    }
  }

  lemma PendingStep(data: seq<byte>, start: nat, end: nat, encrypted: bool, pos: nat, sections: seq<RawSection>)
    requires Pending(data, start, end, encrypted, pos, sections) && pos < end
    ensures var all := ReadSections(data[start..], Span(start, end), encrypted);
            var r := ReadSection(data[pos..], encrypted);
            if pos >= |data| then all == Err(Truncated)
            else if r.Err? then all == Err(r.error)
            else if pos + r.value.1 > end then all == Err(IntegrityMismatch)
            else Pending(data, start, end, encrypted, pos + r.value.1, sections + [r.value.0])
  {
    hide ReadSection;
    if pos < |data| && ReadSection(data[pos..], encrypted).Ok? {
      var (s, size) := ReadSection(data[pos..], encrypted).value;
      if pos + size <= end {
        assert data[pos..][size..] == data[pos + size..];
        var rest := ReadSections(data[pos + size..], Span(pos + size, end), encrypted);
        if rest.Ok? {
          assert sections + ([s] + rest.value) == sections + [s] + rest.value;
        }
      }
    }
  }

  lemma PendingDone(data: seq<byte>, start: nat, end: nat, encrypted: bool, pos: nat, sections: seq<RawSection>)
    requires Pending(data, start, end, encrypted, pos, sections) && pos >= end
    ensures ReadSections(data[start..], Span(start, end), encrypted) == Ok(sections)
  {
    assert sections + [] == sections;
  }

  /** The section loop of extractSections, from `start` up to `end`. */
  method ExtractSections(data: seq<byte>, start: nat, end: nat, isEncrypted: bool) returns (r: Result<seq<RawSection>>)
    requires start <= |data|
    ensures r == ReadSections(data[start..], Span(start, end), isEncrypted)
  {
    hide ReadSection, ReadSections, Pending;
    var pos := start;
    var sections: seq<RawSection> := [];
    PendingStart(data, start, end, isEncrypted);
    while pos < end
      invariant Pending(data, start, end, isEncrypted, pos, sections)
      decreases end - pos
    {
      PendingStep(data, start, end, isEncrypted, pos, sections);
      if pos >= |data| {
        return Err(Truncated);
      }
      var section := Deserialize(data, pos, isEncrypted);
      if section.Err? {
        return Err(section.error);
      }
      if pos + section.value.1 > end {
        return Err(IntegrityMismatch);
      }
      sections := sections + [section.value.0];
      pos := pos + section.value.1;
    }
    PendingDone(data, start, end, isEncrypted, pos, sections);
    r := Ok(sections);
  }
}
