/** src/gics/integrity.ts: the hash chain, and its use over the sections of a segment. */
module Integrity {
  import opened Bytes
  import opened Sections
  import opened Container
  import opened SegmentCodec
  import SegmentIndex

  class IntegrityChain {
    const env: Env
    var currentHash: seq<byte>

    /** Without a seed the chain starts at genesis. */
    constructor (env: Env, seed: Option<seq<byte>>)
      ensures this.env == env
      ensures currentHash == if seed.Some? then seed.value else seq(32, _ => 0)
    {
      this.env := env;
      currentHash := if seed.Some? then seed.value else seq(32, _ => 0);
    }

    method Advance(data: seq<byte>) returns (h: seq<byte>)
      modifies this
      ensures currentHash == env.sha(old(currentHash) + data) == h
    {
      currentHash := env.sha(currentHash + data);
      h := currentHash;
    }
  }

  /** buildSectionIntegrityInput */
  method SectionInput(s: RawSection) returns (input: seq<byte>)
    ensures input == HashInput(s)
  {
    hide ToLE, ManifestBytes;
    var manifest := SerializeManifest(s.manifest);
    input := [s.streamId] + ToLE(|s.manifest|, 2) + manifest + s.payload;
  }

  /** wrapSections: every section takes its hash from the chain. */
  method WrapSections(env: Env, ordinal: nat, sections: seq<Section>, chain: IntegrityChain) returns (raws: seq<RawSection>)
    requires chain.env == env
    modifies chain
    ensures (raws, chain.currentHash) == WrapAll(env, ordinal, sections, old(chain.currentHash))
  {
    hide Wrap;
    raws := [];
    assert sections[0..] == sections && [] + WrapAll(env, ordinal, sections, chain.currentHash).0
                                        == WrapAll(env, ordinal, sections, chain.currentHash).0;
    for i := 0 to |sections|
      invariant var (rest, last) := WrapAll(env, ordinal, sections[i..], chain.currentHash);
                WrapAll(env, ordinal, sections, old(chain.currentHash)) == (raws + rest, last)
    {
      assert sections[i..][0] == sections[i] && sections[i..][1..] == sections[i + 1..];
      ghost var before := chain.currentHash;
      var raw := WrapOne(env, ordinal, sections[i], chain);
      ghost var rest := WrapAll(env, ordinal, sections[i + 1..], raw.hash).0;
      assert raws + ([raw] + rest) == raws + [raw] + rest;
      raws := raws + [raw];
    }
    assert sections[|sections|..] == [] && raws + [] == raws;
  }

  method WrapOne(env: Env, ordinal: nat, s: Section, chain: IntegrityChain) returns (raw: RawSection)
    requires chain.env == env
    modifies chain
    ensures raw == Wrap(env, ordinal, s, old(chain.currentHash)) && chain.currentHash == raw.hash
  {
    hide HashInput, ManifestBytes;
    var id := StreamId(s.stream);
    var packed := env.compress(Payloads(s.blocks));
    var payload, tag := packed, [];
    if env.encrypted {
      var pair := env.seal(ordinal, id, packed);
      payload, tag := pair.0, pair.1;
    }
    raw := RawSection(id, 1, |Payloads(s.blocks)|, [], tag, Manifest(s.blocks), payload);
    var input := SectionInput(raw);
    var hash := chain.Advance(input);
    raw := raw.(hash := hash);
  }

  /** advanceSectionIntegrity over the sections: false at the first stored hash that is not the computed one. */
  method AdvanceSections(env: Env, raws: seq<RawSection>, chain: IntegrityChain) returns (ok: bool)
    requires chain.env == env
    modifies chain
    ensures FollowChain(env, raws, old(chain.currentHash)) == if ok then Ok(chain.currentHash) else Err(IntegrityMismatch)
  {
    hide HashInput;
    for i := 0 to |raws|
      invariant FollowChain(env, raws, old(chain.currentHash)) == FollowChain(env, raws[i..], chain.currentHash)
    {
      assert raws[i..][0] == raws[i] && raws[i..][1..] == raws[i + 1..];
      var input := SectionInput(raws[i]);
      var hash := chain.Advance(input);
      if hash != raws[i].hash {
        return false;
      }
    }
    assert raws[|raws|..] == [];
    ok := true;
  }

  /** assembleSegment: header, sections and index, and a footer over them. */
  method AssembleSegment(env: Env, e: Encoded, raws: seq<RawSection>, ix: SegmentIndex.Index, root: seq<byte>)
    returns (bytes: seq<byte>)
    ensures var pre := PreFooter(e, raws, SegmentIndex.EncodeIndex(ix));
            bytes == pre + FooterBytes(root, env.crc(pre))
  {
    hide ToLE, SectionBytes, SectionsBytes, SegmentIndex.EncodeIndex, HeaderBytes, FooterBytes;
    var serialized := SerializeAll(raws);
    var indexBytes := SegmentIndex.SerializeIndex(ix);
    var totalLength := 14 + |serialized| + |indexBytes| + 36;
    var header := HeaderBytes(14 + |serialized|, totalLength, e.itemMajor, e.itemCount);
    var preFooter := header + (serialized + indexBytes);
    bytes := preFooter + FooterBytes(root, env.crc(preFooter));
  }

  /** The end of encodeSegment: sections wrapped on the chain, the index made, everything put together. */
  method FinishSegment(env: Env, ordinal: nat, e: Encoded, itemIds: seq<int>, chain: IntegrityChain)
    returns (bytes: seq<byte>)
    requires chain.env == env
    modifies chain
    ensures bytes == SegmentBytes(env, ordinal, e, SegmentIndex.MakeIndex(itemIds), old(chain.currentHash))
    ensures chain.currentHash == WrapAll(env, ordinal, e.sections, old(chain.currentHash)).1
  {
    hide WrapAll, PreFooter, FooterBytes, SegmentIndex.EncodeIndex, SegmentIndex.MakeIndex;
    var raws := WrapSections(env, ordinal, e.sections, chain);
    var index := SegmentIndex.CreateSegmentIndex(itemIds);
    bytes := AssembleSegment(env, e, raws, index, chain.currentHash);
  }
}
