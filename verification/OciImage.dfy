/** What an authentic OCI image layout is: which descriptors a layout reaches, what must hold of
    each of them, and which of the manifests are linux/amd64. Documents arrive parsed; files,
    SHA-256, JSON parsing and decompression belong to the world the layout lives in. */
module OciImage {
  import opened Bytes
  import Base64

  /** A media type string; the ten known ones are named, `Named` is any other text. */
  datatype MediaType =
    | OciIndex | DockerIndex | OciManifest | DockerManifest | OciConfig | DockerConfig
    | OciLayer | OciLayerGzip | OciLayerZstd | DockerLayerGzip
    | Named(text: string)

  type Digest = seq<Byte>

  datatype Platform = Platform(os: string, architecture: string, variant: Option<string>, osVersion: Option<string>,
                               osFeatures: seq<string>, features: seq<string>)

  datatype Descriptor = Descriptor(mediaType: MediaType, digest: string, size: U64, platform: Option<Platform>,
                                   annotations: map<string, string>, artifactType: Option<string>,
                                   urls: Option<seq<string>>, data: Option<seq<Byte>>)

  datatype IndexDocument = IndexDocument(schemaVersion: int, mediaType: Option<MediaType>, manifests: seq<Descriptor>,
                                         annotations: map<string, string>)

  datatype ManifestDocument = ManifestDocument(schemaVersion: int, mediaType: Option<MediaType>, config: Descriptor,
                                               layers: seq<Descriptor>, annotations: map<string, string>,
                                               artifactType: Option<string>, subject: Option<Descriptor>)

  datatype ConfigDocument = ConfigDocument(platform: Platform, rootfsKind: string, diffIds: seq<string>)

  datatype Compression = Stored | Gzip | Zstd

  datatype Layer = Layer(digest: Digest, diffId: Digest, size: U64, uncompressedSize: nat, mediaType: MediaType,
      compression: Compression)

  datatype Image = Image(manifestDigest: Digest, manifestSize: U64, manifestMediaType: MediaType,
                         configDigest: Digest, configSize: U64, configMediaType: MediaType, configBytes: seq<Byte>,
                         descriptorPlatform: Option<Platform>, configPlatform: Platform, effectivePlatform: Platform,
                         layers: seq<Layer>)

  datatype Limits = Limits(maxIndexBytes: U64, maxManifestBytes: U64, maxConfigBytes: U64, maxLayerBytes: U64,
                           maxLayerUncompressedBytes: U64, maxTotalUncompressedBytes: U64, maxDecompressionRatio: U64,
                           maxTotalDescriptors: nat, maxDescriptorsPerIndex: nat, maxLayers: nat, maxIndexDepth: nat,
                           maxObjectEntries: nat, maxProcessStringBytes: nat)

  /** The layout's files and the foreign code the verifier relies on. `blob` is the regular file
      named by a digest; `inflate` decodes a whole blob and refuses trailing bytes. */
  datatype World = World(
    blob: Digest -> Option<seq<Byte>>,
    sha256: seq<Byte> -> Digest,
    digest: string -> Option<Digest>,
    index: seq<Byte> -> Option<IndexDocument>,
    manifest: seq<Byte> -> Option<ManifestDocument>,
    config: seq<Byte> -> Option<ConfigDocument>,
    inflate: (Compression, seq<Byte>) -> Option<seq<Byte>>,
    runnable: seq<Byte> -> bool,
    readLength: nat -> nat)

  // ---------------------------------------------------------------------------------------
  // Platforms

  function Explicit(value: Option<string>): Option<string> {
    if value == Some("") then None else value
  }

  predicate PlatformShape(p: Platform, l: Limits) {
    && p.os != "" && p.architecture != ""
    && |p.os| <= l.maxProcessStringBytes && '\0' !in p.os
    && |p.architecture| <= l.maxProcessStringBytes && '\0' !in p.architecture
  }

  predicate Compatible(a: Option<string>, b: Option<string>) {
    Explicit(a).Some? && Explicit(b).Some? ==> Explicit(a) == Explicit(b)
  }

  /** What is compared exactly between two platforms that must agree. */
  predicate Alike(a: Platform, b: Platform) {
    a.os == b.os && a.architecture == b.architecture && a.osFeatures == b.osFeatures
  }

  predicate PlatformsAgree(a: Platform, b: Platform) {
    Alike(a, b) && Compatible(a.variant, b.variant) && Compatible(a.osVersion, b.osVersion)
  }

  predicate Mergeable(inherited: Option<Platform>, local: Option<Platform>, l: Limits) {
    local.Some? ==> PlatformShape(local.value, l) && (inherited.Some? ==> PlatformsAgree(inherited.value, local.value))
  }

  /** The inner platform wins; an absent one inherits. */
  function Merged(inherited: Option<Platform>, local: Option<Platform>): Option<Platform> {
    if local.Some? then local else inherited
  }

  predicate IsTarget(p: Platform) {
    p.os == "linux" && p.architecture == "amd64"
  }

  predicate TargetPlatform(p: Platform) {
    && (Explicit(p.variant) == None || Explicit(p.variant) == Some("v1"))
    && Explicit(p.osVersion) == None
    && p.osFeatures == [] && p.features == []
  }

  function EffectivePlatform(descriptor: Option<Platform>, config: Platform): Platform {
    if descriptor.None? then config.(variant := Explicit(config.variant), osVersion := Explicit(config.osVersion),
        features := [])
    else
      var d := descriptor.value;
      Platform(config.os, config.architecture,
               if Explicit(d.variant).Some? then Explicit(d.variant) else Explicit(config.variant),
               if Explicit(d.osVersion).Some? then Explicit(d.osVersion) else Explicit(config.osVersion),
               if d.osFeatures != [] then d.osFeatures else config.osFeatures,
               d.features)
  }

  // ---------------------------------------------------------------------------------------
  // Documents and blobs

  predicate AnnotationsOk(a: map<string, string>, l: Limits) {
    |a| <= l.maxObjectEntries && "" !in a
  }

  /** An inline copy of the blob, if any, decodes to bytes of the declared size and digest. */
  ghost predicate EmbeddedOk(w: World, d: Descriptor) {
    d.data.Some? ==>
      exists b :: d.data.value == Base64.Encode(b) && |b| == d.size && w.digest(d.digest) == Some(w.sha256(b))
  }

  ghost predicate DescriptorOk(w: World, l: Limits, d: Descriptor) {
    && w.digest(d.digest).Some?
    && d.mediaType != Named("") && d.artifactType.None?
    && (d.urls.Some? ==> d.urls.value == [])
    && EmbeddedOk(w, d)
    && AnnotationsOk(d.annotations, l)
    && (d.platform.Some? ==> PlatformShape(d.platform.value, l))
  }

  predicate IndexOk(index: IndexDocument, descriptorType: Option<MediaType>, l: Limits) {
    && index.schemaVersion == 2
    && (index.mediaType.Some? ==>
          && (index.mediaType.value == OciIndex || index.mediaType.value == DockerIndex)
          && (descriptorType.Some? ==> index.mediaType == descriptorType))
    && 0 < |index.manifests| <= l.maxDescriptorsPerIndex
    && AnnotationsOk(index.annotations, l)
  }

  predicate ManifestOk(m: ManifestDocument, d: Descriptor, l: Limits) {
    && m.schemaVersion == 2
    && (m.mediaType.Some? ==> m.mediaType.value == d.mediaType)
    && m.artifactType.None? && m.subject.None?
    && |m.layers| <= l.maxLayers
    && AnnotationsOk(m.annotations, l)
  }

  predicate ConfigOk(w: World, c: ConfigDocument, l: Limits) {
    && c.rootfsKind == "layers" && |c.diffIds| <= l.maxLayers
    && forall i :: 0 <= i < |c.diffIds| ==> w.digest(c.diffIds[i]).Some?
  }

  /** `b` is the descriptor's blob, with the declared size and digest. */
  predicate Authentic(w: World, d: Descriptor, b: seq<Byte>) {
    && w.digest(d.digest).Some?
    && w.blob(w.digest(d.digest).value) == Some(b)
    && |b| == d.size && w.sha256(b) == w.digest(d.digest).value
  }

  function Contents(w: World, d: Descriptor): (b: seq<Byte>) {
    if w.digest(d.digest).None? then []
    else match w.blob(w.digest(d.digest).value) case None => [] case Some(b) => b
  }

  /** The descriptor's blob is authentic and within the given cap. */
  predicate Fetched(w: World, d: Descriptor, maximum: nat) {
    d.size <= maximum && Authentic(w, d, Contents(w, d))
  }

  function CompressionOf(mediaType: MediaType): Option<Compression> {
    if mediaType == OciLayer then Some(Stored)
    else if mediaType == OciLayerGzip || mediaType == DockerLayerGzip then Some(Gzip)
    else if mediaType == OciLayerZstd then Some(Zstd)
    else None
  }

  function Inflated(w: World, d: Descriptor): Option<seq<Byte>> {
    if CompressionOf(d.mediaType).None? then None
    else w.inflate(CompressionOf(d.mediaType).value, Contents(w, d))
  }

  /** The caps on one layer's decoded size. */
  predicate ExpansionOk(d: Descriptor, compression: Compression, size: nat, l: Limits) {
    && size <= l.maxLayerUncompressedBytes
    && (compression != Stored ==> size <= d.size * l.maxDecompressionRatio)
  }

  // ---------------------------------------------------------------------------------------
  // The descriptors a layout reaches

  /** One descriptor met by the walk. `above` holds the digests of the enclosing indexes. */
  datatype Visit =
    | IndexVisit(d: Descriptor, inherited: Option<Platform>, depth: nat, above: set<Digest>)
    | ManifestVisit(d: Descriptor, inherited: Option<Platform>)
    | ConfigVisit(d: Descriptor)
    | LayerVisit(d: Descriptor, diffId: string)
    | ForeignVisit(d: Descriptor)

  ghost predicate GoodIndex(w: World, l: Limits, v: Visit)
    requires v.IndexVisit?
  {
    && DescriptorOk(w, l, v.d) && Mergeable(v.inherited, v.d.platform, l)
    && v.depth < l.maxIndexDepth
    && w.digest(v.d.digest).value !in v.above
    && Fetched(w, v.d, l.maxIndexBytes)
    && w.index(Contents(w, v.d)).Some? && IndexOk(w.index(Contents(w, v.d)).value, Some(v.d.mediaType), l)
  }

  /** The manifest document itself, without its config. */
  ghost predicate GoodManifestDocument(w: World, l: Limits, d: Descriptor, inherited: Option<Platform>) {
    && DescriptorOk(w, l, d) && Mergeable(inherited, d.platform, l)
    && Fetched(w, d, l.maxManifestBytes)
    && w.manifest(Contents(w, d)).Some? && ManifestOk(w.manifest(Contents(w, d)).value, d, l)
  }

  ghost predicate GoodConfig(w: World, l: Limits, d: Descriptor) {
    && DescriptorOk(w, l, d) && d.platform.None?
    && (d.mediaType == OciConfig || d.mediaType == DockerConfig)
    && Fetched(w, d, l.maxConfigBytes)
    && w.config(Contents(w, d)).Some? && ConfigOk(w, w.config(Contents(w, d)).value, l)
  }

  /** The config's platform is well-formed, agrees with the descriptor's and, for linux/amd64,
      is a supported one. */
  predicate PlatformSuits(l: Limits, config: Platform, descriptor: Option<Platform>) {
    && PlatformShape(config, l)
    && (descriptor.Some? ==> PlatformsAgree(descriptor.value, config))
    && (IsTarget(config) ==> TargetPlatform(config) && (descriptor.Some? ==> TargetPlatform(descriptor.value)))
  }

  /** What the config must say beside the manifest that names it. */
  ghost predicate ConfigSuits(w: World, l: Limits, m: ManifestDocument, c: ConfigDocument, raw: seq<Byte>,
                              platform: Option<Platform>) {
    && |c.diffIds| == |m.layers|
    && PlatformSuits(l, c.platform, platform)
    && (IsTarget(c.platform) ==> w.runnable(raw))
  }

  function ManifestOf(w: World, d: Descriptor): ManifestDocument
    requires w.manifest(Contents(w, d)).Some?
  {
    w.manifest(Contents(w, d)).value
  }

  function ConfigOf(w: World, m: ManifestDocument): ConfigDocument
    requires w.config(Contents(w, m.config)).Some?
  {
    w.config(Contents(w, m.config)).value
  }

  ghost predicate GoodManifest(w: World, l: Limits, d: Descriptor, inherited: Option<Platform>) {
    && GoodManifestDocument(w, l, d, inherited)
    && var m := ManifestOf(w, d);
       && GoodConfig(w, l, m.config)
       && ConfigSuits(w, l, m, ConfigOf(w, m), Contents(w, m.config), Merged(inherited, d.platform))
  }

  /** The layer's blob is authentic, decodes within its caps, and decodes to its DiffID. */
  ghost predicate GoodLayer(w: World, l: Limits, d: Descriptor, diffId: string) {
    && DescriptorOk(w, l, d) && d.platform.None?
    && CompressionOf(d.mediaType).Some?
    && Fetched(w, d, l.maxLayerBytes)
    && Inflated(w, d).Some?
    && w.digest(diffId) == Some(w.sha256(Inflated(w, d).value))
    && ExpansionOk(d, CompressionOf(d.mediaType).value, |Inflated(w, d).value|, l)
  }

  ghost predicate Good(w: World, l: Limits, v: Visit) {
    match v
    case IndexVisit(_, _, _, _) => GoodIndex(w, l, v)
    case ManifestVisit(d, inherited) => GoodManifest(w, l, d, inherited)
    case ConfigVisit(d) => GoodConfig(w, l, d)
    case LayerVisit(d, diffId) => GoodLayer(w, l, d, diffId)
    case ForeignVisit(_) => false
  }

  predicate IsManifestType(t: MediaType) {
    t == OciManifest || t == DockerManifest
  }

  predicate IsIndexType(t: MediaType) {
    t == OciIndex || t == DockerIndex
  }

  function Digested(w: World, text: string): Digest {
    if w.digest(text).Some? then w.digest(text).value else []
  }

  /** What is recorded of a layer. */
  function LayerOf(w: World, d: Descriptor, diffId: string): Layer {
    Layer(Digested(w, d.digest), Digested(w, diffId), d.size,
        if Inflated(w, d).Some? then |Inflated(w, d).value| else 0,
          d.mediaType, if CompressionOf(d.mediaType).Some? then CompressionOf(d.mediaType).value else Stored)
  }

  function LayersOf(w: World, layers: seq<Descriptor>, diffIds: seq<string>): (r: seq<Layer>)
    requires |layers| == |diffIds|
    ensures |r| == |layers| && forall i :: 0 <= i < |r| ==> r[i] == LayerOf(w, layers[i], diffIds[i])
  {
    seq(|layers|, i requires 0 <= i < |layers| => LayerOf(w, layers[i], diffIds[i]))
  }

  /** The manifest and its config can be read together. */
  predicate Readable(w: World, d: Descriptor) {
    && w.manifest(Contents(w, d)).Some?
    && w.config(Contents(w, ManifestOf(w, d).config)).Some?
    && |ManifestOf(w, d).layers| == |ConfigOf(w, ManifestOf(w, d)).diffIds|
  }

  /** The image a manifest describes. */
  function ImageOf(w: World, d: Descriptor, inherited: Option<Platform>): Image
    requires Readable(w, d)
  {
    var m := ManifestOf(w, d);
    var c := ConfigOf(w, m);
    var platform := Merged(inherited, d.platform);
    Image(Digested(w, d.digest), d.size, d.mediaType,
          Digested(w, m.config.digest), m.config.size, m.config.mediaType, Contents(w, m.config),
          platform, c.platform, EffectivePlatform(platform, c.platform), LayersOf(w, m.layers, c.diffIds))
  }

  /** The image of a linux/amd64 manifest; every other visit has none. */
  function ImageAt(w: World, v: Visit): Option<Image> {
    if v.ManifestVisit? && Readable(w, v.d) && IsTarget(ConfigOf(w, ManifestOf(w, v.d)).platform)
    then Some(ImageOf(w, v.d, v.inherited)) else None
  }

  /** Decoded bytes of one visit: only layers decode. */
  function DecodedSize(w: World, v: Visit): nat {
    if v.LayerVisit? && Inflated(w, v.d).Some? then |Inflated(w, v.d).value| else 0
  }
}
