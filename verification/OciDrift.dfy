/** Platform variants along a path: exactly when a level links its neighbours, and a layout that
    is verified although the variants of its outermost and its innermost level differ. */
module OciDrift {
  import opened Bytes
  import opened OciImage
  import opened OciVisits
  import opened OciVerifier

  /** Whatever agrees with `b` from outside agrees with whatever agrees with it from inside. */
  ghost predicate Links(b: Platform) {
    forall a, c {:trigger PlatformsAgree(a, b), PlatformsAgree(b, c)} ::
      PlatformsAgree(a, b) && PlatformsAgree(b, c) ==> PlatformsAgree(a, c)
  }

  /** A level links its neighbours exactly when it states both a variant and an OS version. */
  lemma StatingLevelsLink(b: Platform)
    ensures Links(b) <==> Explicit(b.variant).Some? && Explicit(b.osVersion).Some?
  {
    assert "v2"[1] != "v1"[1];
    if Explicit(b.variant).None? {
      var a, c := b.(variant := Some("v2")), b.(variant := Some("v1"));
      assert PlatformsAgree(a, b) && PlatformsAgree(b, c) && !PlatformsAgree(a, c);
    } else if Explicit(b.osVersion).None? {
      var a, c := b.(osVersion := Some("v2")), b.(osVersion := Some("v1"));
      assert PlatformsAgree(a, b) && PlatformsAgree(b, c) && !PlatformsAgree(a, c);
    }
  }

  // ---------------------------------------------------------------------------------------
  // A layout: index "a" (variant v2) lists index "b" (no variant) lists manifest "c" (variant v1)
  // with config "d" (variant v1). Every blob is the code of its name, and so is its digest.

  function Amd64(variant: Option<string>): Platform {
    Platform("linux", "amd64", variant, None, [], [])
  }

  function Named(mediaType: MediaType, name: string, platform: Option<Platform>): Descriptor {
    Descriptor(mediaType, name, 1, platform, map[], None, None, None)
  }

  function Outer(): Descriptor { Named(OciIndex, "a", Some(Amd64(Some("v2")))) }

  function Middle(): Descriptor { Named(OciIndex, "b", Some(Amd64(None))) }

  function Inner(): Descriptor { Named(OciManifest, "c", Some(Amd64(Some("v1")))) }

  function Config(): Descriptor { Named(OciConfig, "d", None) }

  function Listing(d: Descriptor): IndexDocument { IndexDocument(2, None, [d], map[]) }

  function TheManifest(): ManifestDocument { ManifestDocument(2, None, Config(), [], map[], None, None) }

  function TheConfig(): ConfigDocument { ConfigDocument(Amd64(Some("v1")), "layers", []) }

  function Code(name: string): Option<Digest> {
    if |name| == 1 && name[0] < 256 as char then Some([name[0] as int]) else None
  }

  function Drifting(): World {
    World(g => Some(g), b => b, Code,
          b => if b == [97] then Some(Listing(Middle())) else if b == [98] then Some(Listing(Inner())) else None,
          b => if b == [99] then Some(TheManifest()) else None,
          b => if b == [100] then Some(TheConfig()) else None,
          (c, b) => None, b => true, n => n)
  }

  /** Limits that leave room for this little layout. */
  predicate Roomy(l: Limits) {
    && l.maxIndexBytes > 0 && l.maxManifestBytes > 0 && l.maxConfigBytes > 0
    && l.maxIndexDepth > 1 && l.maxDescriptorsPerIndex > 0 && l.maxTotalDescriptors > 3 && l.maxProcessStringBytes > 4
  }

  /** A descriptor of this layout is in order, and its blob authentic, if its platform is. */
  lemma NamedIsFetched(l: Limits, d: Descriptor, code: Byte, maximum: nat)
    requires d == Named(d.mediaType, d.digest, d.platform) && d.mediaType != MediaType.Named("")
    requires Code(d.digest) == Some([code]) && maximum > 0
    requires d.platform.Some? ==> PlatformShape(d.platform.value, l)
    ensures DescriptorOk(Drifting(), l, d) && Fetched(Drifting(), d, maximum)
    ensures Contents(Drifting(), d) == [code] && Drifting().digest(d.digest) == Some([code])
  {
  }

  lemma Amd64Shape(l: Limits, variant: Option<string>)
    requires Roomy(l)
    ensures PlatformShape(Amd64(variant), l)
  {
    assert |"linux"| == 5 && |"amd64"| == 5;
  }

  lemma OuterIsGood(l: Limits)
    requires Roomy(l)
    ensures GoodIndex(Drifting(), l, IndexVisit(Outer(), None, 0, {}))
    ensures Drifting().digest("a") == Some([97])
            && Drifting().index(Contents(Drifting(), Outer())) == Some(Listing(Middle()))
  {
    Amd64Shape(l, Some("v2"));
    NamedIsFetched(l, Outer(), 97, l.maxIndexBytes);
  }

  lemma MiddleIsGood(l: Limits)
    requires Roomy(l)
    ensures GoodIndex(Drifting(), l, IndexVisit(Middle(), Outer().platform, 1, {[97]}))
    ensures Drifting().digest("b") == Some([98])
            && Drifting().index(Contents(Drifting(), Middle())) == Some(Listing(Inner()))
  {
    Amd64Shape(l, None);
    NamedIsFetched(l, Middle(), 98, l.maxIndexBytes);
    assert [98] != [97] by { assert [98][0] != [97][0]; }
  }

  lemma ConfigIsGood(l: Limits)
    requires Roomy(l)
    ensures GoodConfig(Drifting(), l, Config())
            && Drifting().config(Contents(Drifting(), Config())) == Some(TheConfig())
  {
    NamedIsFetched(l, Config(), 100, l.maxConfigBytes);
  }

  lemma InnerIsGood(l: Limits)
    requires Roomy(l)
    ensures GoodManifest(Drifting(), l, Inner(), Middle().platform)
    ensures Drifting().manifest(Contents(Drifting(), Inner())) == Some(TheManifest())
  {
    Amd64Shape(l, Some("v1"));
    NamedIsFetched(l, Inner(), 99, l.maxManifestBytes);
    ConfigIsGood(l);
  }

  lemma InnerVisits(l: Limits, j: Judge, above: set<Digest>)
    requires Roomy(l) && Judges(j, Drifting(), l)
    ensures Visits(Drifting(), j, l.maxIndexDepth, Inner(), Middle().platform, 2, above) ==
            [ManifestVisit(Inner(), Middle().platform), ConfigVisit(Config())]
    ensures j.good(ManifestVisit(Inner(), Middle().platform)) && j.good(ConfigVisit(Config()))
    ensures j.size(ManifestVisit(Inner(), Middle().platform)) == 0 && j.size(ConfigVisit(Config())) == 0
    ensures j.image(ManifestVisit(Inner(), Middle().platform)).Some? && j.image(ConfigVisit(Config())) == None
  {
    InnerIsGood(l);
    ConfigIsGood(l);
    assert Known(ManifestVisit(Inner(), Middle().platform)) && Known(ConfigVisit(Config()));
    assert ConfigAndLayers(Drifting(), Inner()) == [ConfigVisit(Config())];
  }

  lemma MiddleVisits(l: Limits, j: Judge)
    requires Roomy(l) && Judges(j, Drifting(), l)
    ensures var v := IndexVisit(Middle(), Outer().platform, 1, {[97]});
            && Visits(Drifting(), j, l.maxIndexDepth, Middle(), Outer().platform, 1, {[97]}) ==
               [v, ManifestVisit(Inner(), Middle().platform), ConfigVisit(Config())]
            && j.good(v) && j.size(v) == 0 && j.image(v) == None
  {
    MiddleIsGood(l);
    InnerVisits(l, j, {[97]} + {[98]});
    assert Known(IndexVisit(Middle(), Outer().platform, 1, {[97]}));
    SingleListing(Drifting(), j, l.maxIndexDepth, Inner(), Middle().platform, 2, {[97]} + {[98]});
  }

  lemma SingleListing(w: World, j: Judge, maxDepth: nat, d: Descriptor, inherited: Option<Platform>, depth: nat,
                      above: set<Digest>)
    ensures AllVisits(w, j, maxDepth, [d], inherited, depth, above) ==
            Visits(w, j, maxDepth, d, inherited, depth, above)
  {
    assert [d][1..] == [];
  }

  lemma OuterVisits(l: Limits, j: Judge)
    requires Roomy(l) && Judges(j, Drifting(), l)
    ensures var v0, v1 := IndexVisit(Outer(), None, 0, {}), IndexVisit(Middle(), Outer().platform, 1, {[97]});
            && Visits(Drifting(), j, l.maxIndexDepth, Outer(), None, 0, {}) ==
               [v0, v1, ManifestVisit(Inner(), Middle().platform), ConfigVisit(Config())]
            && j.good(v0) && j.size(v0) == 0 && j.image(v0) == None
  {
    OuterIsGood(l);
    MiddleVisits(l, j);
    assert {} + {[97]} == {[97]};
    assert Known(IndexVisit(Outer(), None, 0, {}));
    SingleListing(Drifting(), j, l.maxIndexDepth, Middle(), Outer().platform, 1, {[97]});
  }

  lemma FourCost(j: Judge, a: Visit, b: Visit, c: Visit, d: Visit)
    requires j.good(a) && j.good(b) && j.good(c) && j.good(d)
    requires j.size(a) == j.size(b) == j.size(c) == j.size(d) == 0
    ensures AllGood(j, [a, b, c, d]) && DecodedTotal(j, [a, b, c, d]) == 0
  {
    var vs := [a, b, c, d];
    assert vs[1..] == [b, c, d] && vs[1..][1..] == [c, d] && vs[1..][1..][1..] == [d] && vs[1..][1..][1..][1..] == [];
    assert DecodedTotal(j, vs[1..][1..][1..]) == 0;
    assert DecodedTotal(j, vs[1..][1..]) == 0;
  }

  lemma ThirdImage(j: Judge, a: Visit, b: Visit, c: Visit, d: Visit)
    requires j.image(a) == j.image(b) == j.image(d) == None && j.image(c).Some?
    ensures |Images(j, [a, b, c, d])| == 1
  {
    var vs := [a, b, c, d];
    assert vs[1..] == [b, c, d] && vs[1..][1..] == [c, d] && vs[1..][1..][1..] == [d] && vs[1..][1..][1..][1..] == [];
    assert Images(j, vs[1..][1..][1..]) == [];
    assert |Images(j, vs[1..][1..])| == 1;
  }

  lemma DriftCosts(l: Limits, j: Judge)
    requires Roomy(l) && Judges(j, Drifting(), l)
    ensures var vs := AllVisits(Drifting(), j, l.maxIndexDepth, [Outer()], None, 0, {});
            AllGood(j, vs) && |vs| == 4 && DecodedTotal(j, vs) == 0 && |Images(j, vs)| == 1
  {
    OuterVisits(l, j);
    MiddleVisits(l, j);
    InnerVisits(l, j, {});
    SingleListing(Drifting(), j, l.maxIndexDepth, Outer(), None, 0, {});
    var v0, v1 := IndexVisit(Outer(), None, 0, {}), IndexVisit(Middle(), Outer().platform, 1, {[97]});
    FourCost(j, v0, v1, ManifestVisit(Inner(), Middle().platform), ConfigVisit(Config()));
    ThirdImage(j, v0, v1, ManifestVisit(Inner(), Middle().platform), ConfigVisit(Config()));
  }

  /** The layout is verified, its three levels form a path on which each level agrees with its
      neighbour, and yet the first and the last do not agree. */
  lemma VariantsDrift(l: Limits)
    requires Roomy(l)
    ensures LayoutFits(Drifting(), l, Listing(Outer()))
    ensures |Images(JudgeOf(Drifting(), l), LayoutVisits(Drifting(), l, Listing(Outer())))| == 1
    ensures Path(Drifting(), [Outer(), Middle(), Inner()])
    ensures !PlatformsAgree(Outer().platform.value, Inner().platform.value)
  {
    JudgeJudges(Drifting(), l);
    DriftCosts(l, JudgeOf(Drifting(), l));
    DriftingPath(l);
    assert "v2"[1] != "v1"[1];
  }

  lemma DriftingPath(l: Limits)
    requires Roomy(l)
    ensures Path(Drifting(), [Outer(), Middle(), Inner()])
  {
    OuterIsGood(l);
    MiddleIsGood(l);
    var path := [Outer(), Middle(), Inner()];
    forall i | 0 <= i < |path| - 1
      ensures IsIndexType(path[i].mediaType) && Drifting().index(Contents(Drifting(), path[i])).Some?
      ensures path[i + 1] in Drifting().index(Contents(Drifting(), path[i])).value.manifests
    {
      if i == 0 {
        assert path[i] == Outer() && path[i + 1] == Middle() && Middle() in Listing(Middle()).manifests;
      } else {
        assert path[i] == Middle() && path[i + 1] == Inner() && Inner() in Listing(Inner()).manifests;
      }
    }
  }
}
