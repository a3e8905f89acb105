/** What a verified layout yields: an image whose every digest, size and DiffID is true of the
    layout's files, at the end of a path from the index, and the only linux/amd64 one. */
module OciGenuine {
  import opened Bytes
  import opened OciImage
  import opened OciVisits

  // ---------------------------------------------------------------------------------------
  // What an image says of the files

  /** The blob named by the layer's digest has that digest and the size, and decodes to bytes
      with the layer's DiffID and uncompressed size. */
  ghost predicate GenuineLayer(w: World, layer: Layer) {
    && w.blob(layer.digest).Some?
    && var bytes := w.blob(layer.digest).value;
       && w.sha256(bytes) == layer.digest && |bytes| == layer.size
       && w.inflate(layer.compression, bytes).Some?
       && var plain := w.inflate(layer.compression, bytes).value;
          w.sha256(plain) == layer.diffId && |plain| == layer.uncompressedSize
  }

  predicate StoredAs(t: MediaType, c: Compression) {
    match c
    case Stored => t == OciLayer
    case Gzip => t == OciLayerGzip || t == DockerLayerGzip
    case Zstd => t == OciLayerZstd
  }

  /** The layer is the one that this descriptor and this DiffID name. */
  predicate Names(w: World, d: Descriptor, diffId: string, layer: Layer) {
    && w.digest(d.digest) == Some(layer.digest) && w.digest(diffId) == Some(layer.diffId)
    && d.size == layer.size && d.mediaType == layer.mediaType && StoredAs(layer.mediaType, layer.compression)
  }

  /** The manifest blob; the config blob it names; and, in order, the layers both of them name. */
  ghost predicate GenuineImage(w: World, image: Image) {
    && w.blob(image.manifestDigest).Some?
    && var raw := w.blob(image.manifestDigest).value;
       && w.sha256(raw) == image.manifestDigest && |raw| == image.manifestSize
       && w.manifest(raw).Some?
       && GenuineContents(w, w.manifest(raw).value, image)
  }

  ghost predicate GenuineContents(w: World, m: ManifestDocument, image: Image) {
    && w.digest(m.config.digest) == Some(image.configDigest) && m.config.mediaType == image.configMediaType
    && w.blob(image.configDigest) == Some(image.configBytes)
    && w.sha256(image.configBytes) == image.configDigest && |image.configBytes| == image.configSize
    && w.config(image.configBytes).Some?
    && var c := w.config(image.configBytes).value;
       && c.platform == image.configPlatform
       && |m.layers| == |c.diffIds| == |image.layers|
       && forall i :: 0 <= i < |image.layers| ==>
            GenuineLayer(w, image.layers[i]) && Names(w, m.layers[i], c.diffIds[i], image.layers[i])
  }

  /** The image is for linux/amd64: of the rest of a platform only the variant v1 may be stated,
      and the effective platform states it exactly when the descriptor or the config does. */
  ghost predicate RunsHere(image: Image) {
    var config, e := image.configPlatform, image.effectivePlatform;
    && config.os == e.os == "linux" && config.architecture == e.architecture == "amd64"
    && e.osVersion.None? && e.osFeatures == [] && e.features == []
    && (e.variant.Some? ==> e.variant == Some("v1"))
    && (e.variant.Some? <==>
          || Explicit(config.variant).Some?
          || (image.descriptorPlatform.Some? && Explicit(image.descriptorPlatform.value.variant).Some?))
  }

  lemma LayerIsGenuine(w: World, l: Limits, d: Descriptor, diffId: string)
    requires GoodLayer(w, l, d, diffId)
    ensures GenuineLayer(w, LayerOf(w, d, diffId)) && Names(w, d, diffId, LayerOf(w, d, diffId))
  {
  }

  lemma ContentsAreGenuine(w: World, l: Limits, d: Descriptor, inherited: Option<Platform>)
    requires GoodManifest(w, l, d, inherited) && Intact(w, l, d)
    ensures GenuineContents(w, ManifestOf(w, d), ImageOf(w, d, inherited))
  {
    var m := ManifestOf(w, d);
    var c := ConfigOf(w, m);
    forall i | 0 <= i < |m.layers|
      ensures GenuineLayer(w, LayerOf(w, m.layers[i], c.diffIds[i]))
           && Names(w, m.layers[i], c.diffIds[i], LayerOf(w, m.layers[i], c.diffIds[i]))
    {
      LayerIsGenuine(w, l, m.layers[i], c.diffIds[i]);
    }
  }

  lemma ImageIsGenuine(w: World, l: Limits, d: Descriptor, inherited: Option<Platform>)
    requires GoodManifest(w, l, d, inherited) && Intact(w, l, d)
    ensures GenuineImage(w, ImageOf(w, d, inherited))
  {
    ContentsAreGenuine(w, l, d, inherited);
  }

  lemma TargetRunsHere(w: World, l: Limits, d: Descriptor, inherited: Option<Platform>)
    requires GoodManifest(w, l, d, inherited) && Readable(w, d) && IsTarget(ConfigOf(w, ManifestOf(w, d)).platform)
    ensures RunsHere(ImageOf(w, d, inherited))
  {
  }

  // ---------------------------------------------------------------------------------------
  // Where an image is found

  /** The platform handed down along these descriptors. */
  ghost function HandedDown(inherited: Option<Platform>, path: seq<Descriptor>): Option<Platform>
    decreases |path|
  {
    if path == [] then inherited else HandedDown(Merged(inherited, path[0].platform), path[1..])
  }

  ghost predicate Silent(path: seq<Descriptor>) {
    forall i :: 0 <= i < |path| ==> path[i].platform.None?
  }

  /** The innermost platform that the path states, if it states one. */
  ghost predicate Innermost(path: seq<Descriptor>, p: Option<Platform>) {
    if Silent(path) then p.None?
    else p.Some? && exists k :: 0 <= k < |path| && path[k].platform == p && Silent(path[k + 1..])
  }

  lemma {:induction false} HandedDownIsInnermost(inherited: Option<Platform>, path: seq<Descriptor>)
    ensures var p := HandedDown(inherited, path);
            if Silent(path) then p == inherited else Innermost(path, p)
    decreases |path|
  {
    if path != [] {
      var rest, p := path[1..], HandedDown(inherited, path);
      assert forall i :: 1 <= i < |path| ==> path[i] == rest[i - 1];
      HandedDownIsInnermost(Merged(inherited, path[0].platform), rest);
      if Silent(rest) {
        assert path[0 + 1..] == rest;
      } else {
        var k :| 0 <= k < |rest| && rest[k].platform == p && Silent(rest[k + 1..]);
        assert path[k + 1].platform == p && path[k + 1 + 1..] == rest[k + 1..];
      }
    }
  }

  lemma HandedOn(inherited: Option<Platform>, path: seq<Descriptor>, d: Descriptor)
    ensures HandedDown(inherited, path + [d]) == Merged(HandedDown(inherited, path), d.platform)
    decreases |path|
  {
    if path == [] {
      assert (path + [d])[1..] == [];
    } else {
      assert (path + [d])[1..] == path[1..] + [d];
      HandedOn(Merged(inherited, path[0].platform), path[1..], d);
    }
  }

  /** A path of nested indexes to a descriptor, with what is handed down to it. */
  ghost predicate Reaches(w: World, path: seq<Descriptor>, inherited: Option<Platform>, d: Descriptor,
                          handed: Option<Platform>) {
    path != [] && Path(w, path) && path[|path| - 1] == d && handed == HandedDown(inherited, path[..|path| - 1])
  }

  lemma PathPrepends(w: World, d: Descriptor, inherited: Option<Platform>, rest: seq<Descriptor>, end: Descriptor,
                     handed: Option<Platform>)
    requires IsIndexType(d.mediaType) && w.index(Contents(w, d)).Some?
    requires rest != [] && rest[0] in w.index(Contents(w, d)).value.manifests
    requires Reaches(w, rest, Merged(inherited, d.platform), end, handed)
    ensures Reaches(w, [d] + rest, inherited, end, handed)
  {
    var path := [d] + rest;
    assert forall i :: 1 <= i < |path| ==> path[i] == rest[i - 1];
    assert path[..|path| - 1] == [d] + rest[..|rest| - 1];
    assert path[..|path| - 1][1..] == rest[..|rest| - 1];
  }

  /** Every manifest that is visited lies at the end of a path. */
  lemma {:induction false} VisitHasPath(w: World, j: Judge, maxDepth: nat, d: Descriptor, inherited: Option<Platform>,
                                        depth: nat, above: set<Digest>, v: Visit)
    returns (path: seq<Descriptor>)
    requires v.ManifestVisit? && v in Visits(w, j, maxDepth, d, inherited, depth, above)
    ensures Reaches(w, path, inherited, v.d, v.inherited) && path[0] == d && IsManifestType(v.d.mediaType)
    decreases if depth <= maxDepth then maxDepth - depth else 0, 1, 0
  {
    if IsManifestType(d.mediaType) {
      path := [d];
    } else {
      var ds := w.index(Contents(w, d)).value.manifests;
      var rest := VisitAmong(w, j, maxDepth, ds, Merged(inherited, d.platform), depth + 1,
                             above + {w.digest(d.digest).value}, v);
      path := [d] + rest;
      PathPrepends(w, d, inherited, rest, v.d, v.inherited);
    }
  }

  lemma {:induction false} VisitAmong(w: World, j: Judge, maxDepth: nat, ds: seq<Descriptor>,
                                      inherited: Option<Platform>, depth: nat, above: set<Digest>, v: Visit)
    returns (path: seq<Descriptor>)
    requires v.ManifestVisit? && v in AllVisits(w, j, maxDepth, ds, inherited, depth, above)
    ensures Reaches(w, path, inherited, v.d, v.inherited) && path[0] in ds && IsManifestType(v.d.mediaType)
    decreases if depth <= maxDepth then maxDepth - depth else 0, 2, |ds|
  {
    if v in Visits(w, j, maxDepth, ds[0], inherited, depth, above) {
      path := VisitHasPath(w, j, maxDepth, ds[0], inherited, depth, above, v);
    } else {
      path := VisitAmong(w, j, maxDepth, ds[1..], inherited, depth, above, v);
    }
  }

  lemma {:induction false} AmongAll(w: World, j: Judge, maxDepth: nat, ds: seq<Descriptor>, d: Descriptor,
                                    inherited: Option<Platform>, depth: nat, above: set<Digest>, v: Visit)
    requires d in ds && v in Visits(w, j, maxDepth, d, inherited, depth, above)
    ensures v in AllVisits(w, j, maxDepth, ds, inherited, depth, above)
    decreases |ds|
  {
    if d != ds[0] {
      AmongAll(w, j, maxDepth, ds[1..], d, inherited, depth, above, v);
    }
  }

  /** And every manifest at the end of a path is visited, if what is met on the way is good. */
  lemma {:induction false} PathIsVisited(w: World, l: Limits, j: Judge, path: seq<Descriptor>,
                                         inherited: Option<Platform>, depth: nat, above: set<Digest>)
    requires Judges(j, w, l) && path != [] && Path(w, path) && Clean(w, l, j, path[0], inherited, depth, above)
    requires IsManifestType(path[|path| - 1].mediaType)
    ensures ManifestVisit(path[|path| - 1], HandedDown(inherited, path[..|path| - 1])) in
            Visits(w, j, l.maxIndexDepth, path[0], inherited, depth, above)
    decreases |path|
  {
    if |path| > 1 {
      var d, rest := path[0], path[1..];
      Descend(w, l, j, path, inherited, depth, above);
      var handed, below := Merged(inherited, d.platform), above + {w.digest(d.digest).value};
      PathIsVisited(w, l, j, rest, handed, depth + 1, below);
      assert path[..|path| - 1][1..] == rest[..|rest| - 1];
      VisitedAbove(w, l, j, path, inherited, depth, above,
          ManifestVisit(rest[|rest| - 1], HandedDown(handed, rest[..|rest| - 1])));
    }
  }

  /** What is visited one level down is visited. */
  lemma VisitedAbove(w: World, l: Limits, j: Judge, path: seq<Descriptor>, inherited: Option<Platform>, depth: nat,
                     above: set<Digest>, v: Visit)
    requires Judges(j, w, l) && |path| > 1 && Path(w, path) && Clean(w, l, j, path[0], inherited, depth, above)
    requires w.digest(path[0].digest).Some?
    requires v in Visits(w, j, l.maxIndexDepth, path[1], Merged(inherited, path[0].platform), depth + 1,
                         above + {w.digest(path[0].digest).value})
    ensures v in Visits(w, j, l.maxIndexDepth, path[0], inherited, depth, above)
  {
    var d := path[0];
    FirstIsGood(w, l, j, d, inherited, depth, above);
    assert path[0 + 1] in w.index(Contents(w, path[0])).value.manifests;
    AmongAll(w, j, l.maxIndexDepth, w.index(Contents(w, d)).value.manifests, path[1],
        Merged(inherited, d.platform), depth + 1, above + {w.digest(d.digest).value}, v);
  }

  lemma {:induction false} ImageHasVisit(j: Judge, vs: seq<Visit>, image: Image) returns (v: Visit)
    requires image in Images(j, vs)
    ensures v in vs && j.image(v) == Some(image)
    decreases |vs|
  {
    if image in Images(j, vs[1..]) {
      v := ImageHasVisit(j, vs[1..], image);
    } else {
      v := vs[0];
    }
  }

  lemma {:induction false} VisitHasImage(j: Judge, vs: seq<Visit>, v: Visit)
    requires v in vs && j.image(v).Some?
    ensures j.image(v).value in Images(j, vs)
    decreases |vs|
  {
    if v != vs[0] {
      VisitHasImage(j, vs[1..], v);
    }
  }
}
