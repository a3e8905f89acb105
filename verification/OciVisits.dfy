/** The descriptors a layout reaches, in the order of the walk, and what a list of them amounts
    to. What makes one visit good is a parameter here: `JudgeOf` gives the real meaning. */
module OciVisits {
  import opened Bytes
  import opened OciImage

  /** What is known of single visits: whether they are good, how many bytes they decode to, and
      which image they yield. */
  datatype Judge = Judge(good: Visit -> bool, size: Visit -> nat, image: Visit -> Option<Image>)

  ghost function JudgeOf(w: World, l: Limits): Judge {
    Judge(v => Good(w, l, v), v => DecodedSize(w, v), v => ImageAt(w, v))
  }

  predicate Known(v: Visit) { true }

  /** `j` judges as the real rules do. The verdict on a visit is looked up only where `Known`
      is mentioned. */
  ghost predicate Judges(j: Judge, w: World, l: Limits) {
    forall v {:trigger Known(v)} :: Known(v) ==>
      j.good(v) == Good(w, l, v) && j.size(v) == DecodedSize(w, v) && j.image(v) == ImageAt(w, v)
  }

  lemma JudgeJudges(w: World, l: Limits)
    ensures Judges(JudgeOf(w, l), w, l)
  {
  }

  // ---------------------------------------------------------------------------------------
  // The visits

  ghost function LayerVisits(layers: seq<Descriptor>, diffIds: seq<string>): (v: seq<Visit>)
    requires |layers| == |diffIds|
    ensures |v| == |layers| && forall i :: 0 <= i < |v| ==> v[i] == LayerVisit(layers[i], diffIds[i])
  {
    if layers == [] then [] else [LayerVisit(layers[0], diffIds[0])] + LayerVisits(layers[1..], diffIds[1..])
  }

  ghost function ConfigAndLayers(w: World, d: Descriptor): seq<Visit>
    requires Readable(w, d)
  {
    var m := ManifestOf(w, d);
    [ConfigVisit(m.config)] + LayerVisits(m.layers, ConfigOf(w, m).diffIds)
  }

  /** Everything met from one descriptor. A bad index or manifest has no children. */
  ghost function Visits(w: World, j: Judge, maxDepth: nat, d: Descriptor, inherited: Option<Platform>, depth: nat,
                        above: set<Digest>): (vs: seq<Visit>)
    ensures vs != []
    decreases if depth <= maxDepth then maxDepth - depth else 0, 1, 0
  {
    if IsManifestType(d.mediaType) then
      var v := ManifestVisit(d, inherited);
      if j.good(v) && Readable(w, d) then [v] + ConfigAndLayers(w, d) else [v]
    else if IsIndexType(d.mediaType) then
      var v := IndexVisit(d, inherited, depth, above);
      if j.good(v) && depth < maxDepth && w.digest(d.digest).Some? && w.index(Contents(w, d)).Some? then
        [v] + AllVisits(w, j, maxDepth, w.index(Contents(w, d)).value.manifests, Merged(inherited, d.platform),
            depth + 1,
                        above + {w.digest(d.digest).value})
      else [v]
    else [ForeignVisit(d)]
  }

  ghost function AllVisits(w: World, j: Judge, maxDepth: nat, ds: seq<Descriptor>, inherited: Option<Platform>,
                           depth: nat, above: set<Digest>): seq<Visit>
    decreases if depth <= maxDepth then maxDepth - depth else 0, 2, |ds|
  {
    if ds == [] then []
    else Visits(w, j, maxDepth, ds[0], inherited, depth, above) + AllVisits(w, j, maxDepth, ds[1..], inherited, depth,
        above)
  }

  // ---------------------------------------------------------------------------------------
  // What a list of visits costs

  /** The verifier's counters and findings. */
  datatype Tally = Tally(seen: nat, total: nat, candidates: seq<Image>)

  datatype Caps = Caps(descriptors: nat, bytes: nat)

  ghost function Add(candidates: seq<Image>, image: Option<Image>): seq<Image> {
    if image.Some? then candidates + [image.value] else candidates
  }

  ghost predicate Affordable(j: Judge, caps: Caps, v: Visit, t: Tally) {
    j.good(v) && t.seen + 1 <= caps.descriptors && t.total + j.size(v) <= caps.bytes
  }

  /** The tally after one visit. */
  ghost function Added(j: Judge, v: Visit, t: Tally): Tally {
    Tally(t.seen + 1, t.total + j.size(v), Add(t.candidates, j.image(v)))
  }

  ghost function ChargeOne(j: Judge, caps: Caps, v: Visit, t: Tally): Option<Tally> {
    if Affordable(j, caps, v, t) then Some(Added(j, v, t)) else None
  }

  /** The visits one after the other; the first that is bad or too much ends the run. */
  ghost function Charge(j: Judge, caps: Caps, vs: seq<Visit>, t: Tally): Option<Tally> {
    if vs == [] then Some(t)
    else if Affordable(j, caps, vs[0], t) then Charge(j, caps, vs[1..], Added(j, vs[0], t))
    else None
  }

  lemma {:induction false} ChargeAppend(j: Judge, caps: Caps, a: seq<Visit>, b: seq<Visit>, t: Tally)
    ensures Charge(j, caps, a + b, t) ==
            match Charge(j, caps, a, t) case None => None case Some(u) => Charge(j, caps, b, u)
    decreases |a|
  {
    if a == [] {
      assert a + b == b;
    } else {
      assert (a + b)[1..] == a[1..] + b;
      if Affordable(j, caps, a[0], t) {
        ChargeAppend(j, caps, a[1..], b, Added(j, a[0], t));
      }
    }
  }

  lemma ChargeSingle(j: Judge, caps: Caps, v: Visit, t: Tally)
    ensures Charge(j, caps, [v], t) == ChargeOne(j, caps, v, t)
  {
    assert [v][1..] == [];
  }

  lemma ChargeHead(j: Judge, caps: Caps, v: Visit, rest: seq<Visit>, t: Tally)
    ensures Charge(j, caps, [v] + rest, t) ==
            if Affordable(j, caps, v, t) then Charge(j, caps, rest, Added(j, v, t)) else None
  {
    assert ([v] + rest)[1..] == rest;
  }

  /** A visit that decodes nothing and yields no image only counts. */
  lemma ChargeCons(j: Judge, caps: Caps, v: Visit, rest: seq<Visit>, t: Tally)
    requires t.total <= caps.bytes && j.size(v) == 0 && j.image(v) == None
    ensures Charge(j, caps, [v] + rest, t) ==
            if j.good(v) && t.seen + 1 <= caps.descriptors then Charge(j, caps, rest, t.(seen := t.seen + 1)) else None
  {
    ChargeHead(j, caps, v, rest, t);
  }

  ghost predicate Imageless(j: Judge, vs: seq<Visit>) {
    vs == [] || (j.image(vs[0]) == None && Imageless(j, vs[1..]))
  }

  /** Visits without an image leave the findings alone. */
  lemma {:induction false} ImagelessCharge(j: Judge, caps: Caps, vs: seq<Visit>, t: Tally, extra: seq<Image>)
    requires Imageless(j, vs)
    ensures Charge(j, caps, vs, t.(candidates := extra)) ==
            match Charge(j, caps, vs, t) case None => None case Some(u) => Some(u.(candidates := extra))
    decreases |vs|
  {
    if vs != [] {
      ImagelessCharge(j, caps, vs[1..], Added(j, vs[0], t), extra);
    }
  }

  /** An image may as well be recorded after visits that have none. */
  lemma ImageLast(j: Judge, caps: Caps, v: Visit, below: seq<Visit>, t: Tally)
    requires t.total <= caps.bytes && j.size(v) == 0 && Imageless(j, below)
    ensures Charge(j, caps, [v] + below, t) ==
            if !j.good(v) || t.seen + 1 > caps.descriptors then None
            else match Charge(j, caps, below, t.(seen := t.seen + 1))
              case None => None
              case Some(u) => Some(u.(candidates := Add(t.candidates, j.image(v))))
  {
    ChargeHead(j, caps, v, below, t);
    ImagelessCharge(j, caps, below, t.(seen := t.seen + 1), Add(t.candidates, j.image(v)));
  }

  ghost predicate AllGood(j: Judge, vs: seq<Visit>) {
    forall i :: 0 <= i < |vs| ==> j.good(vs[i])
  }

  ghost function DecodedTotal(j: Judge, vs: seq<Visit>): nat {
    if vs == [] then 0 else j.size(vs[0]) + DecodedTotal(j, vs[1..])
  }

  /** The images of the linux/amd64 manifests among the visits. */
  ghost function Images(j: Judge, vs: seq<Visit>): seq<Image> {
    if vs == [] then [] else Add([], j.image(vs[0])) + Images(j, vs[1..])
  }

  /** The run goes through exactly when every visit is good and the sums stay within the caps;
      the counters are then the exact sums. */
  lemma {:induction false} ChargeExact(j: Judge, caps: Caps, vs: seq<Visit>, t: Tally)
    requires t.seen <= caps.descriptors && t.total <= caps.bytes
    ensures Charge(j, caps, vs, t).Some? <==>
              AllGood(j, vs) && t.seen + |vs| <= caps.descriptors && t.total + DecodedTotal(j, vs) <= caps.bytes
    ensures Charge(j, caps, vs, t).Some? ==>
              Charge(j, caps, vs, t).value ==
                  Tally(t.seen + |vs|, t.total + DecodedTotal(j, vs), t.candidates + Images(j, vs))
    decreases |vs|
  {
    if vs == [] {
      assert t.candidates + [] == t.candidates;
    } else {
      assert vs == [vs[0]] + vs[1..];
      AllGoodAppend(j, [vs[0]], vs[1..]);
      assert AllGood(j, [vs[0]]) <==> j.good(vs[0]) by { assert [vs[0]][0] == vs[0]; }
      if Affordable(j, caps, vs[0], t) {
        ChargeExact(j, caps, vs[1..], Added(j, vs[0], t));
        assert Add(t.candidates, j.image(vs[0])) + Images(j, vs[1..]) ==
            t.candidates + (Add([], j.image(vs[0])) + Images(j, vs[1..]));
      }
    }
  }

  lemma AllGoodAppend(j: Judge, a: seq<Visit>, b: seq<Visit>)
    ensures AllGood(j, a + b) <==> AllGood(j, a) && AllGood(j, b)
  {
    assert forall i :: 0 <= i < |a| ==> (a + b)[i] == a[i];
    assert forall i :: 0 <= i < |b| ==> (a + b)[|a| + i] == b[i];
  }

  // ---------------------------------------------------------------------------------------
  // Paths through nested indexes

  /** `path` leads from its first descriptor down through nested indexes. */
  ghost predicate Path(w: World, path: seq<Descriptor>) {
    forall i :: 0 <= i < |path| - 1 ==>
      && IsIndexType(path[i].mediaType)
      && w.index(Contents(w, path[i])).Some?
      && path[i + 1] in w.index(Contents(w, path[i])).value.manifests
  }

  /** Everything reached from this descriptor is good. */
  ghost predicate Clean(w: World, l: Limits, j: Judge, d: Descriptor, inherited: Option<Platform>, depth: nat,
                        above: set<Digest>) {
    AllGood(j, Visits(w, j, l.maxIndexDepth, d, inherited, depth, above))
  }

  lemma {:induction false} ChildIsClean(w: World, l: Limits, j: Judge, ds: seq<Descriptor>, d: Descriptor,
                                        inherited: Option<Platform>, depth: nat, above: set<Digest>)
    requires d in ds && AllGood(j, AllVisits(w, j, l.maxIndexDepth, ds, inherited, depth, above))
    ensures Clean(w, l, j, d, inherited, depth, above)
    decreases |ds|
  {
    AllGoodAppend(j, Visits(w, j, l.maxIndexDepth, ds[0], inherited, depth, above),
        AllVisits(w, j, l.maxIndexDepth, ds[1..], inherited, depth, above));
    if d != ds[0] {
      ChildIsClean(w, l, j, ds[1..], d, inherited, depth, above);
    }
  }

  lemma FirstIsGood(w: World, l: Limits, j: Judge, d: Descriptor, inherited: Option<Platform>, depth: nat,
                    above: set<Digest>)
    requires Judges(j, w, l) && Clean(w, l, j, d, inherited, depth, above)
    ensures IsIndexType(d.mediaType) || IsManifestType(d.mediaType)
    ensures Authentic(w, d, Contents(w, d)) && Mergeable(inherited, d.platform, l)
    ensures IsIndexType(d.mediaType) ==>
            j.good(IndexVisit(d, inherited, depth, above)) && GoodIndex(w, l, IndexVisit(d, inherited, depth, above))
  {
    var v := Visits(w, j, l.maxIndexDepth, d, inherited, depth, above)[0];
    assert j.good(v);
    assert Known(v);
  }

  /** The manifest's config is a good one and beside each layer stands its DiffID, to which the
      layer's blob decodes. */
  ghost predicate Intact(w: World, l: Limits, d: Descriptor) {
    && Readable(w, d)
    && var m := ManifestOf(w, d);
       var diffIds := ConfigOf(w, m).diffIds;
       && GoodConfig(w, l, m.config)
       && forall i :: 0 <= i < |m.layers| ==> GoodLayer(w, l, m.layers[i], diffIds[i])
  }

  lemma CleanManifestIsIntact(w: World, l: Limits, j: Judge, d: Descriptor, inherited: Option<Platform>, depth: nat,
                              above: set<Digest>)
    requires Judges(j, w, l) && IsManifestType(d.mediaType) && Clean(w, l, j, d, inherited, depth, above)
    ensures Intact(w, l, d)
  {
    var v := ManifestVisit(d, inherited);
    var vs := Visits(w, j, l.maxIndexDepth, d, inherited, depth, above);
    assert vs[0] == v && j.good(v) && Known(v);
    var m := ManifestOf(w, d);
    var layers := LayerVisits(m.layers, ConfigOf(w, m).diffIds);
    assert vs == [v] + ([ConfigVisit(m.config)] + layers);
    forall i | 0 <= i < |m.layers| ensures GoodLayer(w, l, m.layers[i], ConfigOf(w, m).diffIds[i]) {
      assert vs[i + 2] == layers[i] && Known(layers[i]);
    }
  }

  /** One step down a path. */
  lemma Descend(w: World, l: Limits, j: Judge, path: seq<Descriptor>, inherited: Option<Platform>, depth: nat,
                above: set<Digest>)
    requires Judges(j, w, l) && |path| > 1 && Path(w, path) && Clean(w, l, j, path[0], inherited, depth, above)
    ensures w.digest(path[0].digest).Some? && Path(w, path[1..])
    ensures Clean(w, l, j, path[1], Merged(inherited, path[0].platform), depth + 1,
            above + {w.digest(path[0].digest).value})
  {
    var d, rest := path[0], path[1..];
    assert forall i :: 0 <= i < |rest| ==> rest[i] == path[i + 1];
    assert path[0 + 1] in w.index(Contents(w, path[0])).value.manifests;
    FirstIsGood(w, l, j, d, inherited, depth, above);
    var v := IndexVisit(d, inherited, depth, above);
    var ds := w.index(Contents(w, d)).value.manifests;
    var below := above + {w.digest(d.digest).value};
    AllGoodAppend(j, [v], AllVisits(w, j, l.maxIndexDepth, ds, Merged(inherited, d.platform), depth + 1, below));
    ChildIsClean(w, l, j, ds, path[1], Merged(inherited, d.platform), depth + 1, below);
  }

  ghost predicate Below(w: World, l: Limits, path: seq<Descriptor>, above: set<Digest>, depth: nat) {
    forall i :: 0 <= i < |path| ==>
      && Authentic(w, path[i], Contents(w, path[i]))
      && (IsIndexType(path[i].mediaType) ==> w.digest(path[i].digest).value !in above && depth + i < l.maxIndexDepth)
  }

  ghost predicate NoRepeats(w: World, path: seq<Descriptor>) {
    forall i, j :: 0 <= i < j < |path| && IsIndexType(path[i].mediaType) && IsIndexType(path[j].mediaType) ==>
      w.digest(path[i].digest) != w.digest(path[j].digest)
  }

  /** Every platform stated along the path matches the one handed down, in what is compared exactly. */
  ghost predicate AllAlike(path: seq<Descriptor>, p: Platform) {
    forall i :: 0 <= i < |path| && path[i].platform.Some? ==> Alike(p, path[i].platform.value)
  }

  /** In an accepted layout every descriptor on every path is authentic, no index digest occurs
      twice on a path or among the indexes enclosing it, and the nesting stays within its limit. */
  lemma {:induction false} PathsAreAuthentic(w: World, l: Limits, j: Judge, path: seq<Descriptor>,
                                             inherited: Option<Platform>, depth: nat, above: set<Digest>)
    requires Judges(j, w, l) && path != [] && Path(w, path) && Clean(w, l, j, path[0], inherited, depth, above)
    ensures Below(w, l, path, above, depth) && NoRepeats(w, path)
    decreases |path|
  {
    var d := path[0];
    FirstIsGood(w, l, j, d, inherited, depth, above);
    if |path| > 1 {
      Descend(w, l, j, path, inherited, depth, above);
      PathsAreAuthentic(w, l, j, path[1..], Merged(inherited, d.platform), depth + 1,
          above + {w.digest(d.digest).value});
      assert IsIndexType(path[0].mediaType);
      PathExtends(w, l, path, above, depth);
    }
  }

  lemma PathExtends(w: World, l: Limits, path: seq<Descriptor>, above: set<Digest>, depth: nat)
    requires |path| > 1 && IsIndexType(path[0].mediaType) && Authentic(w, path[0], Contents(w, path[0]))
    requires w.digest(path[0].digest).value !in above && depth < l.maxIndexDepth
    requires Below(w, l, path[1..], above + {w.digest(path[0].digest).value}, depth + 1) && NoRepeats(w, path[1..])
    ensures Below(w, l, path, above, depth) && NoRepeats(w, path)
  {
    assert forall i :: 1 <= i < |path| ==> path[i] == path[1..][i - 1];
  }

  /** Operating system, architecture and OS features are the same wherever a path states them. */
  lemma {:induction false} PathsKeepTheirPlatform(w: World, l: Limits, j: Judge, path: seq<Descriptor>,
                                                  inherited: Option<Platform>, depth: nat, above: set<Digest>)
    requires Judges(j, w, l) && path != [] && Path(w, path) && Clean(w, l, j, path[0], inherited, depth, above)
    ensures inherited.Some? ==> AllAlike(path, inherited.value)
    ensures forall i :: 0 <= i < |path| && path[i].platform.Some? ==> AllAlike(path[i..], path[i].platform.value)
    decreases |path|
  {
    var d := path[0];
    FirstIsGood(w, l, j, d, inherited, depth, above);
    assert path[0..] == path;
    if |path| > 1 {
      Descend(w, l, j, path, inherited, depth, above);
      PathsKeepTheirPlatform(w, l, j, path[1..], Merged(inherited, d.platform), depth + 1,
          above + {w.digest(d.digest).value});
      PlatformExtends(path, inherited);
    }
  }

  lemma PlatformExtends(path: seq<Descriptor>, inherited: Option<Platform>)
    requires |path| > 1
    requires inherited.Some? && path[0].platform.Some? ==> Alike(inherited.value, path[0].platform.value)
    requires Merged(inherited, path[0].platform).Some? ==>
             AllAlike(path[1..], Merged(inherited, path[0].platform).value)
    requires forall i :: 0 <= i < |path[1..]| && path[1..][i].platform.Some? ==>
             AllAlike(path[1..][i..], path[1..][i].platform.value)
    ensures inherited.Some? ==> AllAlike(path, inherited.value)
    ensures forall i :: 0 <= i < |path| && path[i].platform.Some? ==> AllAlike(path[i..], path[i].platform.value)
  {
    var rest := path[1..];
    assert path[0..] == path;
    assert forall i :: 1 <= i < |path| ==> path[i] == rest[i - 1] && path[i..] == rest[i - 1..];
  }

  /** A part of the platform that neighbouring levels compare where both state it. */
  ghost predicate Compared(field: Platform -> Option<string>) {
    forall a, b :: PlatformsAgree(a, b) ==> Compatible(field(a), field(b))
  }

  /** Every platform stated along the path states this part. */
  ghost predicate Stated(field: Platform -> Option<string>, path: seq<Descriptor>) {
    forall i :: 0 <= i < |path| && path[i].platform.Some? ==> Explicit(field(path[i].platform.value)).Some?
  }

  ghost predicate AllSame(field: Platform -> Option<string>, path: seq<Descriptor>, value: Option<string>) {
    forall i :: 0 <= i < |path| && path[i].platform.Some? ==> Explicit(field(path[i].platform.value)) == value
  }

  /** A stated value is handed down unchanged for as long as every platform states one. */
  lemma {:induction false} StatedValuesPersist(w: World, l: Limits, j: Judge, field: Platform -> Option<string>,
                                               path: seq<Descriptor>, inherited: Platform, depth: nat,
                                                   above: set<Digest>)
    requires Judges(j, w, l) && Compared(field) && path != [] && Path(w, path)
    requires Clean(w, l, j, path[0], Some(inherited), depth, above)
    requires Explicit(field(inherited)).Some? && Stated(field, path)
    ensures AllSame(field, path, Explicit(field(inherited)))
    decreases |path|
  {
    var d := path[0];
    FirstIsGood(w, l, j, d, Some(inherited), depth, above);
    if |path| > 1 {
      Descend(w, l, j, path, Some(inherited), depth, above);
      assert Stated(field, path[1..]) by { assert forall i :: 0 <= i < |path[1..]| ==> path[1..][i] == path[i + 1]; }
      StatedValuesPersist(w, l, j, field, path[1..], Merged(Some(inherited), d.platform).value, depth + 1,
                          above + {w.digest(d.digest).value});
      assert forall i :: 1 <= i < |path| ==> path[i] == path[1..][i - 1];
    }
  }

  lemma StatedFromTheFirst(w: World, l: Limits, j: Judge, field: Platform -> Option<string>, path: seq<Descriptor>,
                           inherited: Option<Platform>, depth: nat, above: set<Digest>)
    requires Judges(j, w, l) && Compared(field) && |path| > 1 && Path(w, path)
    requires Clean(w, l, j, path[0], inherited, depth, above) && path[0].platform.Some? && Stated(field, path)
    ensures AllSame(field, path, Explicit(field(path[0].platform.value)))
  {
    var d, rest := path[0], path[1..];
    Descend(w, l, j, path, inherited, depth, above);
    assert forall h :: 0 <= h < |rest| ==> rest[h] == path[h + 1];
    StatedValuesPersist(w, l, j, field, rest, d.platform.value, depth + 1, above + {w.digest(d.digest).value});
    assert forall h :: 1 <= h < |path| ==> path[h] == rest[h - 1];
  }

  /** Everything below any level of a clean path is clean, with the platform handed down to it. */
  lemma {:induction false} DescendTo(w: World, l: Limits, j: Judge, path: seq<Descriptor>, inherited: Option<Platform>,
                                     depth: nat, above: set<Digest>, i: nat)
    returns (inherited': Option<Platform>, above': set<Digest>)
    requires Judges(j, w, l) && Path(w, path) && i < |path| && Clean(w, l, j, path[0], inherited, depth, above)
    ensures Clean(w, l, j, path[i], inherited', depth + i, above')
    decreases i
  {
    if i == 0 {
      inherited', above' := inherited, above;
    } else {
      var rest := path[1..];
      Descend(w, l, j, path, inherited, depth, above);
      assert rest[0] == path[1] && rest[i - 1] == path[i];
      var below := above + {w.digest(path[0].digest).value};
      inherited', above' := DescendTo(w, l, j, rest, Merged(inherited, path[0].platform), depth + 1, below, i - 1);
    }
  }

  lemma PathPart(w: World, path: seq<Descriptor>, m: nat, n: nat)
    requires Path(w, path) && m <= n <= |path|
    ensures Path(w, path[m..n])
  {
    assert forall i :: 0 <= i < n - m ==> path[m..n][i] == path[m + i];
  }

  /** Between two levels the value is the same if every platform stated from the one to the other
      states it. */
  lemma StatedValuesAgree(w: World, l: Limits, j: Judge, field: Platform -> Option<string>, path: seq<Descriptor>,
                          inherited: Option<Platform>, depth: nat, above: set<Digest>, i: nat, k: nat)
    requires Judges(j, w, l) && Compared(field) && Path(w, path)
    requires i < k < |path| && path[i].platform.Some? && path[k].platform.Some? && Stated(field, path[i..k + 1])
    requires Clean(w, l, j, path[0], inherited, depth, above)
    ensures Explicit(field(path[i].platform.value)) == Explicit(field(path[k].platform.value))
  {
    var part := path[i..k + 1];
    assert part[0] == path[i] && part[k - i] == path[k];
    var inherited', above' := DescendTo(w, l, j, path, inherited, depth, above, i);
    PathPart(w, path, i, k + 1);
    StatedFromTheFirst(w, l, j, field, part, inherited', depth + i, above');
  }
}
