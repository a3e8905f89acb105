/** The verifier that walks a layout: counters, budgets and the set of open indexes change in
    place, blobs are hashed in pieces, and the first problem ends the run. It succeeds exactly
    on the layouts whose visits are all good and fit the budgets. */
module OciVerifier {
  import opened Bytes
  import opened OciImage
  import opened OciGenuine
  import opened OciVisits
  import Base64

  const BUFFER := 65536

  /** How many bytes the next read returns: at least one, at most a buffer and what is left. */
  function ReadSize(wanted: nat, left: nat): (n: nat)
    requires left > 0
    ensures 1 <= n <= left && n <= BUFFER
  {
    var n := if wanted == 0 then 1 else if wanted > BUFFER then BUFFER else wanted;
    if n > left then left else n
  }

  // ---------------------------------------------------------------------------------------
  // The pieces of a manifest and of an index

  lemma LayerFacts(w: World, l: Limits, j: Judge, d: Descriptor, diffId: string)
    requires Judges(j, w, l)
    ensures var v := LayerVisit(d, diffId);
            && (j.good(v) <==> GoodLayer(w, l, d, diffId))
            && (j.good(v) ==> j.size(v) == |Inflated(w, d).value|)
  {
    assert Known(LayerVisit(d, diffId));
  }

  lemma LayersAreImageless(w: World, l: Limits, j: Judge, d: Descriptor, diffId: string)
    requires Judges(j, w, l)
    ensures j.image(LayerVisit(d, diffId)) == None
  {
    assert Known(LayerVisit(d, diffId));
  }

  lemma ConfigFacts(w: World, l: Limits, j: Judge, d: Descriptor)
    requires Judges(j, w, l)
    ensures var v := ConfigVisit(d); (j.good(v) <==> GoodConfig(w, l, d)) && j.size(v) == 0 && j.image(v) == None
  {
    assert Known(ConfigVisit(d));
  }

  lemma ForeignIsBad(w: World, l: Limits, j: Judge, caps: Caps, d: Descriptor, t: Tally)
    requires Judges(j, w, l)
    ensures Charge(j, caps, [ForeignVisit(d)], t) == None
  {
    assert Known(ForeignVisit(d));
    ChargeSingle(j, caps, ForeignVisit(d), t);
  }

  lemma ManifestFacts(w: World, l: Limits, j: Judge, d: Descriptor, inherited: Option<Platform>)
    requires Judges(j, w, l)
    ensures var v := ManifestVisit(d, inherited);
            && (j.good(v) <==> GoodManifest(w, l, d, inherited))
            && j.size(v) == 0
            && (j.good(v) ==> Readable(w, d) && j.image(v) == ImageAt(w, v))
  {
    assert Known(ManifestVisit(d, inherited));
  }

  lemma ManifestReads(w: World, l: Limits, j: Judge, d: Descriptor, inherited: Option<Platform>)
    requires Judges(j, w, l)
    ensures var v := ManifestVisit(d, inherited); j.size(v) == 0 && (j.good(v) ==> Readable(w, d))
  {
    ManifestFacts(w, l, j, d, inherited);
  }

  lemma IndexFacts(w: World, l: Limits, j: Judge, d: Descriptor, inherited: Option<Platform>, depth: nat,
                   above: set<Digest>)
    requires Judges(j, w, l)
    ensures var v := IndexVisit(d, inherited, depth, above);
            (j.good(v) <==> GoodIndex(w, l, v)) && j.size(v) == 0 && j.image(v) == None
  {
    assert Known(IndexVisit(d, inherited, depth, above));
  }

  /** What the walk needs to know of an index before it opens it. */
  ghost predicate Opens(w: World, l: Limits, v: Visit)
    requires v.IndexVisit?
  {
    v.depth < l.maxIndexDepth && w.digest(v.d.digest).Some? && w.digest(v.d.digest).value !in v.above
        && w.index(Contents(w, v.d)).Some?
  }

  lemma IndexOpens(w: World, l: Limits, j: Judge, v: Visit)
    requires Judges(j, w, l) && v.IndexVisit?
    ensures j.size(v) == 0 && j.image(v) == None && (j.good(v) ==> Opens(w, l, v))
  {
    IndexFacts(w, l, j, v.d, v.inherited, v.depth, v.above);
  }

  lemma {:induction false} LayerVisitsAreImageless(w: World, l: Limits, j: Judge, vs: seq<Visit>)
    requires Judges(j, w, l) && forall i :: 0 <= i < |vs| ==> vs[i].LayerVisit?
    ensures Imageless(j, vs)
  {
    if vs != [] {
      LayersAreImageless(w, l, j, vs[0].d, vs[0].diffId);
      LayerVisitsAreImageless(w, l, j, vs[1..]);
    }
  }

  lemma ContentsAreImageless(w: World, l: Limits, j: Judge, d: Descriptor)
    requires Judges(j, w, l) && Readable(w, d)
    ensures Imageless(j, ConfigAndLayers(w, d))
  {
    var m := ManifestOf(w, d);
    var layers := LayerVisits(m.layers, ConfigOf(w, m).diffIds);
    assert ConfigAndLayers(w, d)[1..] == layers;
    ConfigFacts(w, l, j, m.config);
    LayerVisitsAreImageless(w, l, j, layers);
  }

  /** A manifest in the order of the code: itself, then its config and layers, then its image. */
  lemma ManifestCharge(w: World, l: Limits, j: Judge, caps: Caps, maxDepth: nat, d: Descriptor,
                       inherited: Option<Platform>, depth: nat, above: set<Digest>, t: Tally)
    requires Judges(j, w, l) && IsManifestType(d.mediaType) && t.total <= caps.bytes
    ensures Charge(j, caps, Visits(w, j, maxDepth, d, inherited, depth, above), t) ==
            ManifestOutcome(w, j, caps, d, inherited, t)
  {
    ManifestReads(w, l, j, d, inherited);
    ContentsCharge(w, l, j, caps, d, inherited, Visits(w, j, maxDepth, d, inherited, depth, above), t);
  }

  lemma ContentsCharge(w: World, l: Limits, j: Judge, caps: Caps, d: Descriptor, inherited: Option<Platform>,
                       vs: seq<Visit>, t: Tally)
    requires Judges(j, w, l) && t.total <= caps.bytes
    requires var v := ManifestVisit(d, inherited);
             && j.size(v) == 0 && (j.good(v) ==> Readable(w, d))
             && vs == if j.good(v) then [v] + ConfigAndLayers(w, d) else [v]
    ensures Charge(j, caps, vs, t) == ManifestOutcome(w, j, caps, d, inherited, t)
  {
    var v := ManifestVisit(d, inherited);
    if j.good(v) {
      ContentsAreImageless(w, l, j, d);
      ImageLast(j, caps, v, ConfigAndLayers(w, d), t);
    } else {
      ChargeSingle(j, caps, v, t);
    }
  }

  ghost function ManifestOutcome(w: World, j: Judge, caps: Caps, d: Descriptor, inherited: Option<Platform>,
                                 t: Tally): Option<Tally> {
    var v := ManifestVisit(d, inherited);
    if !j.good(v) || t.seen + 1 > caps.descriptors || !Readable(w, d) then None
    else match Charge(j, caps, ConfigAndLayers(w, d), t.(seen := t.seen + 1))
      case None => None
      case Some(u) => Some(u.(candidates := Add(t.candidates, j.image(v))))
  }

  /** An index in the order of the code: itself, then what it lists. */
  ghost function IndexOutcome(w: World, j: Judge, caps: Caps, l: Limits, v: Visit, t: Tally): Option<Tally>
    requires v.IndexVisit?
  {
    if j.good(v) && t.seen + 1 <= caps.descriptors && Opens(w, l, v)
    then Charge(j, caps, Children(w, j, l.maxIndexDepth, v), t.(seen := t.seen + 1))
    else None
  }

  lemma IndexVisits(w: World, l: Limits, j: Judge, v: Visit)
    requires v.IndexVisit? && IsIndexType(v.d.mediaType)
    requires j.good(v) ==> Opens(w, l, v)
    ensures Visits(w, j, l.maxIndexDepth, v.d, v.inherited, v.depth, v.above) ==
            if j.good(v) then [v] + Children(w, j, l.maxIndexDepth, v) else [v]
  {
  }

  lemma ListCharge(w: World, l: Limits, j: Judge, caps: Caps, v: Visit, vs: seq<Visit>, t: Tally)
    requires Judges(j, w, l) && v.IndexVisit? && t.total <= caps.bytes
    requires j.good(v) ==> Opens(w, l, v)
    requires vs == if j.good(v) then [v] + Children(w, j, l.maxIndexDepth, v) else [v]
    ensures Charge(j, caps, vs, t) == IndexOutcome(w, j, caps, l, v, t)
  {
    IndexOpens(w, l, j, v);
    if j.good(v) {
      ChargeCons(j, caps, v, Children(w, j, l.maxIndexDepth, v), t);
    } else {
      ChargeSingle(j, caps, v, t);
    }
  }

  lemma IndexCharge(w: World, l: Limits, j: Judge, caps: Caps, d: Descriptor, inherited: Option<Platform>, depth: nat,
                    above: set<Digest>, t: Tally)
    requires Judges(j, w, l) && IsIndexType(d.mediaType) && t.total <= caps.bytes
    ensures Charge(j, caps, Visits(w, j, l.maxIndexDepth, d, inherited, depth, above), t) ==
            IndexOutcome(w, j, caps, l, IndexVisit(d, inherited, depth, above), t)
  {
    var v := IndexVisit(d, inherited, depth, above);
    IndexOpens(w, l, j, v);
    IndexVisits(w, l, j, v);
    ListCharge(w, l, j, caps, v, Visits(w, j, l.maxIndexDepth, d, inherited, depth, above), t);
  }

  ghost function Children(w: World, j: Judge, maxDepth: nat, v: Visit): seq<Visit>
    requires v.IndexVisit? && w.digest(v.d.digest).Some? && w.index(Contents(w, v.d)).Some?
  {
    AllVisits(w, j, maxDepth, w.index(Contents(w, v.d)).value.manifests, Merged(v.inherited, v.d.platform), v.depth + 1,
              v.above + {w.digest(v.d.digest).value})
  }

  class Verifier {
    const w: World
    const l: Limits
    const caps: Caps
    ghost const j: Judge
    var seen: nat
    var total: nat
    var active: set<Digest>
    var candidates: seq<Image>

    ghost predicate Valid()
      reads this
    {
      && Judges(j, w, l)
      && caps == Caps(l.maxTotalDescriptors, l.maxTotalUncompressedBytes)
      && seen <= caps.descriptors && total <= caps.bytes
    }

    /** The state after a step that may have failed. */
    ghost function Outcome(ok: bool): Option<Tally>
      reads this
    {
      if ok then Some(Now()) else None
    }

    ghost function Now(): Tally
      reads this
    {
      Tally(seen, total, candidates)
    }

    constructor (w: World, l: Limits)
      ensures this.w == w && this.l == l && j == JudgeOf(w, l) && Now() == Tally(0, 0, []) && active == {} && Valid()
    {
      this.w := w;
      this.l := l;
      this.j := JudgeOf(w, l);
      caps := Caps(l.maxTotalDescriptors, l.maxTotalUncompressedBytes);
      seen := 0;
      total := 0;
      active := {};
      candidates := [];
    }

    method ValidateEmbedded(d: Descriptor) returns (ok: bool)
      requires w.digest(d.digest).Some?
      ensures ok <==> EmbeddedOk(w, d)
    {
      if d.data.None? {
        return true;
      }
      var decoded := Base64.DecodeCanonical(d.data.value);
      if decoded.None? {
        return false;
      }
      ok := |decoded.value| == d.size && w.sha256(decoded.value) == w.digest(d.digest).value;
    }

    method ValidateDescriptor(d: Descriptor) returns (ok: bool)
      ensures ok <==> DescriptorOk(w, l, d)
    {
      if w.digest(d.digest).None? || d.mediaType == Named("") || d.artifactType.Some?
          || (d.urls.Some? && d.urls.value != []) {
        return false;
      }
      ok := ValidateEmbedded(d);
      ok := ok && AnnotationsOk(d.annotations, l) && (d.platform.Some? ==> PlatformShape(d.platform.value, l));
    }

    method ConsumeDescriptor(d: Descriptor) returns (ok: bool)
      requires Valid()
      modifies this`seen
      ensures ok <==> DescriptorOk(w, l, d) && old(seen) + 1 <= caps.descriptors
      ensures ok ==> Valid() && seen == old(seen) + 1
    {
      seen := seen + 1;
      if seen > caps.descriptors {
        return false;
      }
      ok := ValidateDescriptor(d);
    }

    /** Reads the blob in pieces, counting and hashing what was read. */
    method AuthenticateBlob(d: Descriptor, maximum: nat) returns (r: Option<seq<Byte>>)
      ensures r.Some? <==> Fetched(w, d, maximum)
      ensures r.Some? ==> r.value == Contents(w, d)
    {
      if d.size > maximum || w.digest(d.digest).None? {
        return None;
      }
      var file := w.blob(w.digest(d.digest).value);
      if file.None? || |file.value| != d.size {
        return None;
      }
      var count, hashed: seq<Byte> := 0, [];
      while count < |file.value|
        invariant 0 <= count <= |file.value| && hashed == file.value[..count]
        decreases |file.value| - count
      {
        var n := ReadSize(w.readLength(count), |file.value| - count);
        if count + n > maximum {
          return None;
        }
        assert file.value[..count] + file.value[count..count + n] == file.value[..count + n];
        hashed := hashed + file.value[count..count + n];
        count := count + n;
      }
      assert hashed == file.value;
      if count != d.size || w.sha256(hashed) != w.digest(d.digest).value {
        return None;
      }
      r := Some(hashed);
    }

    /** Hashes the decoded stream in pieces and stops as soon as a cap is passed. */
    method HashUncompressedStream(plain: seq<Byte>, d: Descriptor, compression: Compression) returns (r: Option<Digest>)
      requires Valid()
      ensures r.Some? <==> ExpansionOk(d, compression, |plain|, l) && total + |plain| <= caps.bytes
      ensures r.Some? ==> r.value == w.sha256(plain)
    {
      var size, hashed: seq<Byte> := 0, [];
      while size < |plain|
        invariant 0 <= size <= |plain| && hashed == plain[..size]
        invariant ExpansionOk(d, compression, size, l) && total + size <= caps.bytes
        decreases |plain| - size
      {
        var n := ReadSize(w.readLength(size), |plain| - size);
        assert plain[..size] + plain[size..size + n] == plain[..size + n];
        hashed := hashed + plain[size..size + n];
        size := size + n;
        if size > l.maxLayerUncompressedBytes || total + size > caps.bytes {
          return None;
        }
        if compression != Stored && size > d.size * l.maxDecompressionRatio {
          return None;
        }
      }
      assert hashed == plain;
      r := Some(w.sha256(hashed));
    }

    /** The layer's blob decodes to the announced DiffID; its size is added to the total. */
    method VerifyLayerDiffId(d: Descriptor, compression: Compression, bytes: seq<Byte>,
                             diffId: Digest) returns (r: Option<nat>)
      requires Valid()
      modifies this`total
      ensures r.Some? <==>
                && w.inflate(compression, bytes).Some?
                && var plain := w.inflate(compression, bytes).value;
                   && w.sha256(plain) == diffId && ExpansionOk(d, compression, |plain|, l)
                     && old(total) + |plain| <= caps.bytes
      ensures r.Some? ==> Valid() && r.value == |w.inflate(compression, bytes).value| && total == old(total) + r.value
    {
      var plain := w.inflate(compression, bytes);
      if plain.None? {
        return None;
      }
      var actual := HashUncompressedStream(plain.value, d, compression);
      if actual.None? || actual.value != diffId {
        return None;
      }
      total := total + |plain.value|;
      r := Some(|plain.value|);
    }

    /** One layer: counted, authenticated, decoded, compared with its DiffID, added up. */
    method CheckLayer(d: Descriptor, diffId: string) returns (r: Option<Layer>)
      requires Valid()
      modifies this`seen, this`total
      ensures r.Some? <==>
                var v := LayerVisit(d, diffId);
                j.good(v) && old(seen) + 1 <= caps.descriptors && old(total) + j.size(v) <= caps.bytes
      ensures r.Some? ==> Valid() && r.value == LayerOf(w, d, diffId)
      ensures r.Some? ==> seen == old(seen) + 1 && total == old(total) + j.size(LayerVisit(d, diffId))
    {
      LayerFacts(w, l, j, d, diffId);
      var ok := ConsumeDescriptor(d);
      if !ok || d.platform.Some? || CompressionOf(d.mediaType).None? {
        return None;
      }
      var bytes := AuthenticateBlob(d, l.maxLayerBytes);
      if bytes.None? || w.digest(diffId).None? {
        return None;
      }
      var compression := CompressionOf(d.mediaType).value;
      var size := VerifyLayerDiffId(d, compression, bytes.value, w.digest(diffId).value);
      if size.None? {
        return None;
      }
      r := Some(Layer(w.digest(d.digest).value, w.digest(diffId).value, d.size, size.value, d.mediaType, compression));
    }

    method VerifyLayer(d: Descriptor, diffId: string) returns (r: Option<Layer>)
      requires Valid()
      modifies this`seen, this`total
      ensures Outcome(r.Some?) == ChargeOne(j, caps, LayerVisit(d, diffId), old(Now()))
      ensures r.Some? ==> Valid() && r.value == LayerOf(w, d, diffId)
    {
      LayersAreImageless(w, l, j, d, diffId);
      r := CheckLayer(d, diffId);
    }

    method VerifyLayers(layers: seq<Descriptor>, diffIds: seq<string>) returns (r: Option<seq<Layer>>)
      requires Valid() && |layers| == |diffIds|
      modifies this`seen, this`total
      ensures Outcome(r.Some?) == Charge(j, caps, LayerVisits(layers, diffIds), old(Now()))
      ensures r.Some? ==> Valid() && r.value == LayersOf(w, layers, diffIds)
    {
      var done: seq<Layer> := [];
      ghost var vs, all := LayerVisits(layers, diffIds), LayersOf(w, layers, diffIds);
      assert vs[0..] == vs && all[..0] == [];
      for i := 0 to |layers|
        invariant Valid() && Charge(j, caps, vs[i..], Now()) == Charge(j, caps, vs, old(Now()))
        invariant done == all[..i]
      {
        assert vs[i..][0] == LayerVisit(layers[i], diffIds[i]) && vs[i..][1..] == vs[i + 1..];
        var layer := VerifyLayer(layers[i], diffIds[i]);
        if layer.None? {
          return None;
        }
        assert all[..i] + [all[i]] == all[..i + 1];
        done := done + [layer.value];
      }
      assert vs[|layers|..] == [] && all[..|layers|] == all;
      r := Some(done);
    }

    /** The manifest's config document, authenticated and parsed. */
    method VerifyConfig(d: Descriptor) returns (r: Option<ConfigDocument>)
      requires Valid()
      modifies this`seen
      ensures Outcome(r.Some?) == ChargeOne(j, caps, ConfigVisit(d), old(Now()))
      ensures r.Some? ==> Valid() && GoodConfig(w, l, d) && r == w.config(Contents(w, d))
    {
      ConfigFacts(w, l, j, d);
      var ok := ConsumeDescriptor(d);
      if !ok || d.platform.Some? || (d.mediaType != OciConfig && d.mediaType != DockerConfig) {
        return None;
      }
      var bytes := AuthenticateBlob(d, l.maxConfigBytes);
      if bytes.None? || w.config(bytes.value).None? || !ConfigOk(w, w.config(bytes.value).value, l) {
        return None;
      }
      r := w.config(bytes.value);
    }

    /** The platform checks that come after the layers have been verified. */
    method PlatformChecks(config: Platform, descriptor: Option<Platform>) returns (ok: bool)
      ensures ok <==> PlatformSuits(l, config, descriptor)
    {
      if !PlatformShape(config, l) {
        return false;
      }
      if descriptor.Some? && !PlatformsAgree(descriptor.value, config) {
        return false;
      }
      if !IsTarget(config) {
        return true;
      }
      if !TargetPlatform(config) {
        return false;
      }
      ok := descriptor.None? || TargetPlatform(descriptor.value);
    }

    /** The manifest document: counted, authenticated, parsed, checked. */
    method ReadManifest(d: Descriptor, inherited: Option<Platform>) returns (r: Option<ManifestDocument>)
      requires Valid()
      modifies this`seen
      ensures r.Some? <==> GoodManifestDocument(w, l, d, inherited) && old(seen) + 1 <= caps.descriptors
      ensures r.Some? ==> Valid() && r == w.manifest(Contents(w, d)) && seen == old(seen) + 1
    {
      var ok := ConsumeDescriptor(d);
      if !ok || !Mergeable(inherited, d.platform, l) {
        return None;
      }
      var bytes := AuthenticateBlob(d, l.maxManifestBytes);
      if bytes.None? || w.manifest(bytes.value).None? || !ManifestOk(w.manifest(bytes.value).value, d, l) {
        return None;
      }
      r := w.manifest(bytes.value);
    }

    /** The config and the layers a manifest names. */
    method VerifyContents(m: ManifestDocument, ghost d: Descriptor) returns (r: Option<(ConfigDocument, seq<Layer>)>)
      requires Valid() && w.manifest(Contents(w, d)) == Some(m)
      modifies this`seen, this`total
      ensures r.None? && GoodConfig(w, l, m.config) && Readable(w, d) ==>
                Charge(j, caps, ConfigAndLayers(w, d), old(Now())) == None
      ensures r.Some? ==> Valid() && GoodConfig(w, l, m.config) && Readable(w, d)
      ensures r.Some? ==> Charge(j, caps, ConfigAndLayers(w, d), old(Now())) == Some(Now())
      ensures r.Some? ==> r.value == (ConfigOf(w, m), LayersOf(w, m.layers, ConfigOf(w, m).diffIds))
    {
      ghost var t := Now();
      var config := VerifyConfig(m.config);
      if Readable(w, d) {
        assert ConfigAndLayers(w, d)[1..] == LayerVisits(m.layers, ConfigOf(w, m).diffIds);
      }
      if config.None? || |config.value.diffIds| != |m.layers| {
        return None;
      }
      var layers := VerifyLayers(m.layers, config.value.diffIds);
      if layers.None? {
        return None;
      }
      r := Some((config.value, layers.value));
    }

    /** The images found grow by this manifest's, if it is a linux/amd64 one. */
    method Record(d: Descriptor, inherited: Option<Platform>, m: ManifestDocument, c: ConfigDocument,
                  layers: seq<Layer>)
      requires Readable(w, d) && m == ManifestOf(w, d) && c == ConfigOf(w, m)
               && layers == LayersOf(w, m.layers, c.diffIds)
      modifies this`candidates
      ensures candidates == Add(old(candidates), ImageAt(w, ManifestVisit(d, inherited)))
    {
      if IsTarget(c.platform) {
        var platform := Merged(inherited, d.platform);
        candidates := candidates + [
          Image(Digested(w, d.digest), d.size, d.mediaType,
                Digested(w, m.config.digest), m.config.size, m.config.mediaType, Contents(w, m.config),
                platform, c.platform, EffectivePlatform(platform, c.platform), layers)];
      }
    }

    method VerifyManifest(d: Descriptor, inherited: Option<Platform>, ghost depth: nat) returns (ok: bool)
      requires Valid() && IsManifestType(d.mediaType)
      modifies this`seen, this`total, this`candidates
      ensures Outcome(ok) == Charge(j, caps, Visits(w, j, l.maxIndexDepth, d, inherited, depth, active), old(Now()))
      ensures ok ==> Valid()
    {
      ManifestFacts(w, l, j, d, inherited);
      ManifestCharge(w, l, j, caps, l.maxIndexDepth, d, inherited, depth, active, Now());
      var m := ReadManifest(d, inherited);
      if m.None? {
        return false;
      }
      var contents := VerifyContents(m.value, d);
      if contents.None? {
        return false;
      }
      ok := PlatformChecks(contents.value.0.platform, Merged(inherited, d.platform));
      if ok && IsTarget(contents.value.0.platform) {
        ok := w.runnable(Contents(w, m.value.config));
      }
      if ok {
        Record(d, inherited, m.value, contents.value.0, contents.value.1);
      }
    }

    /** The index document: counted, checked for depth and cycles, authenticated, parsed. */
    method ReadIndex(d: Descriptor, inherited: Option<Platform>, depth: nat) returns (r: Option<IndexDocument>)
      requires Valid()
      modifies this`seen
      ensures r.Some? <==> j.good(IndexVisit(d, inherited, depth, active)) && old(seen) + 1 <= caps.descriptors
      ensures r.Some? ==> Valid() && r == w.index(Contents(w, d)) && seen == old(seen) + 1
    {
      IndexFacts(w, l, j, d, inherited, depth, active);
      var ok := ConsumeDescriptor(d);
      if !ok || !Mergeable(inherited, d.platform, l) || depth >= l.maxIndexDepth || w.digest(d.digest).value in active {
        return None;
      }
      var bytes := AuthenticateBlob(d, l.maxIndexBytes);
      if bytes.None? || w.index(bytes.value).None? || !IndexOk(w.index(bytes.value).value, Some(d.mediaType), l) {
        return None;
      }
      r := w.index(bytes.value);
    }

    /** The walk from one descriptor. When it succeeds the set of open indexes is restored. */
    method WalkDescriptor(d: Descriptor, inherited: Option<Platform>, depth: nat) returns (ok: bool)
      requires Valid() && depth <= l.maxIndexDepth
      modifies this
      ensures Outcome(ok) ==
              Charge(j, caps, Visits(w, j, l.maxIndexDepth, d, inherited, depth, old(active)), old(Now()))
      ensures ok ==> Valid() && active == old(active)
      decreases l.maxIndexDepth - depth, 1
    {
      if IsManifestType(d.mediaType) {
        ok := VerifyManifest(d, inherited, depth);
      } else if IsIndexType(d.mediaType) {
        IndexCharge(w, l, j, caps, d, inherited, depth, active, Now());
        ok := WalkIndex(d, inherited, depth);
      } else {
        ForeignIsBad(w, l, j, caps, d, Now());
        ok := false;
      }
    }

    method WalkIndex(d: Descriptor, inherited: Option<Platform>, depth: nat) returns (ok: bool)
      requires Valid() && depth <= l.maxIndexDepth
      modifies this
      ensures Outcome(ok) == IndexOutcome(w, j, caps, l, IndexVisit(d, inherited, depth, old(active)), old(Now()))
      ensures ok ==> Valid() && active == old(active)
      decreases l.maxIndexDepth - depth, 0
    {
      IndexOpens(w, l, j, IndexVisit(d, inherited, depth, active));
      var index := ReadIndex(d, inherited, depth);
      if index.None? {
        return false;
      }
      ok := WalkOpened(w.digest(d.digest).value, index.value.manifests, Merged(inherited, d.platform), depth + 1);
    }

    /** What an index lists, with the index open meanwhile. */
    method WalkOpened(digest: Digest, ds: seq<Descriptor>, inherited: Option<Platform>, depth: nat) returns (ok: bool)
      requires Valid() && depth <= l.maxIndexDepth && digest !in active
      modifies this
      ensures Outcome(ok) == Charge(j, caps, AllVisits(w, j, l.maxIndexDepth, ds, inherited, depth,
                                                       old(active) + {digest}), old(Now()))
      ensures ok ==> Valid() && active == old(active)
      decreases l.maxIndexDepth - depth, 3
    {
      active := active + {digest};
      ok := WalkAll(ds, inherited, depth);
      if ok {
        active := active - {digest};
      }
    }

    /** The descriptors of one index, in order. */
    method WalkAll(ds: seq<Descriptor>, inherited: Option<Platform>, depth: nat) returns (ok: bool)
      requires Valid() && depth <= l.maxIndexDepth
      modifies this
      ensures Outcome(ok) ==
              Charge(j, caps, AllVisits(w, j, l.maxIndexDepth, ds, inherited, depth, old(active)), old(Now()))
      ensures ok ==> Valid() && active == old(active)
      decreases l.maxIndexDepth - depth, 2
    {
      ghost var above := active;
      assert ds[0..] == ds;
      for i := 0 to |ds|
        invariant Valid() && active == above
        invariant Charge(j, caps, AllVisits(w, j, l.maxIndexDepth, ds[i..], inherited, depth, above), Now())
               == Charge(j, caps, AllVisits(w, j, l.maxIndexDepth, ds, inherited, depth, above), old(Now()))
      {
        assert ds[i..][0] == ds[i] && ds[i..][1..] == ds[i + 1..];
        ChargeAppend(j, caps, Visits(w, j, l.maxIndexDepth, ds[i], inherited, depth, above),
                     AllVisits(w, j, l.maxIndexDepth, ds[i + 1..], inherited, depth, above), Now());
        ok := WalkDescriptor(ds[i], inherited, depth);
        if !ok {
          return;
        }
      }
      ok := true;
    }
  }

  /** Everything reached from the top-level index document. */
  ghost function LayoutVisits(w: World, l: Limits, index: IndexDocument): seq<Visit> {
    AllVisits(w, JudgeOf(w, l), l.maxIndexDepth, index.manifests, None, 0, {})
  }

  /** Everything reached is good, and the counts and decoded bytes are within their caps. */
  ghost predicate LayoutFits(w: World, l: Limits, index: IndexDocument) {
    && IndexOk(index, None, l)
    && AllGood(JudgeOf(w, l), LayoutVisits(w, l, index))
    && |LayoutVisits(w, l, index)| <= l.maxTotalDescriptors
    && DecodedTotal(JudgeOf(w, l), LayoutVisits(w, l, index)) <= l.maxTotalUncompressedBytes
  }

  /** From an accepted layout: paths are authentic, acyclic and bounded, agree on their
      platform's operating system, architecture and OS features, and end in manifests whose
      config and layers are intact. */
  lemma AcceptedLayoutsAreAuthentic(w: World, l: Limits, index: IndexDocument, path: seq<Descriptor>)
    requires LayoutFits(w, l, index) && path != [] && path[0] in index.manifests && Path(w, path)
    ensures Below(w, l, path, {}, 0) && NoRepeats(w, path)
    ensures forall i :: 0 <= i < |path| && path[i].platform.Some? ==> AllAlike(path[i..], path[i].platform.value)
    ensures forall i :: 0 <= i < |path| && IsManifestType(path[i].mediaType) ==> Intact(w, l, path[i])
  {
    var j := JudgeOf(w, l);
    JudgeJudges(w, l);
    ChildIsClean(w, l, j, index.manifests, path[0], None, 0, {});
    forall i | 0 <= i < |path| && IsManifestType(path[i].mediaType) ensures Intact(w, l, path[i]) {
      var inherited, above := DescendTo(w, l, j, path, None, 0, {}, i);
      CleanManifestIsIntact(w, l, j, path[i], inherited, i, above);
    }
    PathsAreAuthentic(w, l, j, path, None, 0, {});
    PathsKeepTheirPlatform(w, l, j, path, None, 0, {});
  }

  /** A path from the layout's index. */
  ghost predicate FromIndex(w: World, index: IndexDocument, path: seq<Descriptor>) {
    path != [] && path[0] in index.manifests && Path(w, path)
  }

  ghost predicate EndsAt(w: World, path: seq<Descriptor>, image: Image) {
    path != [] && w.digest(path[|path| - 1].digest) == Some(image.manifestDigest)
  }

  /** The path leads to the image's manifest, and its innermost platform is the image's. */
  ghost predicate Leads(w: World, index: IndexDocument, path: seq<Descriptor>, image: Image) {
    && FromIndex(w, index, path) && EndsAt(w, path, image) && Innermost(path, image.descriptorPlatform)
    && path[|path| - 1].size == image.manifestSize && path[|path| - 1].mediaType == image.manifestMediaType
  }

  /** The path leads to a manifest whose config says linux/amd64. */
  ghost predicate ToTarget(w: World, index: IndexDocument, path: seq<Descriptor>) {
    && FromIndex(w, index, path) && IsManifestType(path[|path| - 1].mediaType)
    && w.manifest(Contents(w, path[|path| - 1])).Some?
    && var config := w.config(Contents(w, w.manifest(Contents(w, path[|path| - 1])).value.config));
       config.Some? && config.value.platform.os == "linux" && config.value.platform.architecture == "amd64"
  }

  lemma FoundManifest(w: World, l: Limits, index: IndexDocument, image: Image) returns (v: Visit, path: seq<Descriptor>)
    requires LayoutFits(w, l, index) && Images(JudgeOf(w, l), LayoutVisits(w, l, index)) == [image]
    ensures v.ManifestVisit? && ImageAt(w, v) == Some(image)
    ensures GoodManifest(w, l, v.d, v.inherited) && Intact(w, l, v.d)
    ensures FromIndex(w, index, path) && Reaches(w, path, None, v.d, v.inherited)
  {
    var j, vs := JudgeOf(w, l), LayoutVisits(w, l, index);
    assert image in [image];
    v := ImageHasVisit(j, vs, image);
    path := VisitAmong(w, j, l.maxIndexDepth, index.manifests, None, 0, {}, v);
    AcceptedLayoutsAreAuthentic(w, l, index, path);
    assert Good(w, l, v);
  }

  lemma FoundImageIsGenuine(w: World, l: Limits, index: IndexDocument, image: Image)
    requires LayoutFits(w, l, index) && Images(JudgeOf(w, l), LayoutVisits(w, l, index)) == [image]
    ensures GenuineImage(w, image) && RunsHere(image)
    ensures exists path :: Leads(w, index, path, image)
  {
    var v, path := FoundManifest(w, l, index, image);
    var d := v.d;
    ImageIsGenuine(w, l, d, v.inherited);
    TargetRunsHere(w, l, d, v.inherited);
    assert path == path[..|path| - 1] + [d];
    HandedOn(None, path[..|path| - 1], d);
    HandedDownIsInnermost(None, path);
    assert Leads(w, index, path, image);
  }

  lemma OnlyOneTarget(w: World, l: Limits, index: IndexDocument, image: Image, path: seq<Descriptor>)
    requires LayoutFits(w, l, index) && Images(JudgeOf(w, l), LayoutVisits(w, l, index)) == [image]
    requires ToTarget(w, index, path)
    ensures EndsAt(w, path, image)
  {
    var j, vs, d := JudgeOf(w, l), LayoutVisits(w, l, index), path[|path| - 1];
    JudgeJudges(w, l);
    ChildIsClean(w, l, j, index.manifests, path[0], None, 0, {});
    PathIsVisited(w, l, j, path, None, 0, {});
    var v := ManifestVisit(d, HandedDown(None, path[..|path| - 1]));
    AmongAll(w, j, l.maxIndexDepth, index.manifests, path[0], None, 0, {}, v);
    AcceptedLayoutsAreAuthentic(w, l, index, path);
    VisitHasImage(j, vs, v);
  }

  /** Verification succeeds exactly when everything reachable is good and within budget and
      exactly one manifest is a linux/amd64 one; the image returned is that manifest's. */
  method VerifyLayout(w: World, l: Limits, index: IndexDocument) returns (r: Option<Image>)
    ensures r.Some? <==> LayoutFits(w, l, index) && |Images(JudgeOf(w, l), LayoutVisits(w, l, index))| == 1
    ensures r.Some? ==> Images(JudgeOf(w, l), LayoutVisits(w, l, index)) == [r.value]
    // What the image says is true of the files, and it is the only one for linux/amd64.
    ensures r.Some? ==> GenuineImage(w, r.value) && RunsHere(r.value)
    ensures r.Some? ==> exists path :: Leads(w, index, path, r.value)
    ensures r.Some? ==> forall path :: ToTarget(w, index, path) ==> EndsAt(w, path, r.value)
  {
    if !IndexOk(index, None, l) {
      return None;
    }
    var v := new Verifier(w, l);
    ghost var vs := LayoutVisits(w, l, index);
    ChargeExact(v.j, v.caps, vs, v.Now());
    assert [] + Images(v.j, vs) == Images(v.j, vs);
    var ok := v.WalkAll(index.manifests, None, 0);
    if !ok || |v.candidates| != 1 {
      return None;
    }
    r := Some(v.candidates[0]);
    FoundImageIsGenuine(w, l, index, r.value);
    forall path | ToTarget(w, index, path) ensures EndsAt(w, path, r.value) {
      OnlyOneTarget(w, l, index, r.value, path);
    }
  }

  function VariantOf(p: Platform): Option<string> { p.variant }

  function VersionOf(p: Platform): Option<string> { p.osVersion }

  /** On every path of an accepted layout the explicit variants at two levels are equal if every
      platform stated between them has an explicit variant; the same holds for the OS version. */
  lemma AcceptedVariantsAgree(w: World, l: Limits, index: IndexDocument, path: seq<Descriptor>, i: nat, k: nat)
    requires LayoutFits(w, l, index) && path != [] && path[0] in index.manifests && Path(w, path)
    requires i < k < |path| && path[i].platform.Some? && path[k].platform.Some?
    ensures Stated(VariantOf, path[i..k + 1]) ==>
              Explicit(path[i].platform.value.variant) == Explicit(path[k].platform.value.variant)
    ensures Stated(VersionOf, path[i..k + 1]) ==>
              Explicit(path[i].platform.value.osVersion) == Explicit(path[k].platform.value.osVersion)
  {
    var j := JudgeOf(w, l);
    JudgeJudges(w, l);
    ChildIsClean(w, l, j, index.manifests, path[0], None, 0, {});
    if Stated(VariantOf, path[i..k + 1]) {
      StatedValuesAgree(w, l, j, VariantOf, path, None, 0, {}, i, k);
    }
    if Stated(VersionOf, path[i..k + 1]) {
      StatedValuesAgree(w, l, j, VersionOf, path, None, 0, {}, i, k);
    }
  }
}
