/** Pathname resolution as section 4.13 of POSIX.1-2017 (Base Definitions) describes it, inside
    a root that ".." cannot leave, and how the resolver's restart-and-normalize walk relates to
    it on the tree the walk leaves behind. */
module ResolverReference {
  import opened Bytes
  import opened Resolver

  datatype Reached = Found(path: Path, followed: nat) | NotThere | NotADirectory | Looping | Failing

  /** The parent directory; the root is its own. */
  function Up(here: Path): Path {
    if here == [] then [] else Front(here)
  }

  /** One component of a lookup: it ends, or goes on elsewhere with other components. */
  datatype Move = Stop(end: Reached) | Go(here: Path, parts: Path, followed: nat)

  /** ".." goes to the parent of where the lookup really is, a link is replaced by its text, the
      last component may be missing. */
  function MoveOf(fs: Tree, here: Path, parts: Path, followed: nat): Move
    requires parts != []
  {
    var at, rest := here + [parts[0]], parts[1..];
    if parts[0] == ".." then Go(Up(here), rest, followed)
    else if at !in fs then Stop(if rest == [] then Found(at, followed) else NotThere)
    else match fs[at]
      case Directory => Go(at, rest, followed)
      case Other => Stop(if rest == [] then Found(at, followed) else NotADirectory)
      case Unreadable => Stop(Failing)
      case Symlink(target) =>
        if followed >= MAX_SYMLINKS then Stop(Looping)
        else if target.None? then Stop(Failing)
        else
          // Section 4.13: a text that begins with a slash starts at the root, any other at the
          // directory that holds the link.
          var parts' := Components(target.value) + rest;
          if "/" <= target.value then Go([], parts', followed + 1) else Go(here, parts', followed + 1)
  }

  function Lookup(fs: Tree, here: Path, parts: Path, followed: nat): (r: Reached)
    requires followed <= MAX_SYMLINKS
    ensures r.Found? ==> followed <= r.followed <= MAX_SYMLINKS
    decreases MAX_SYMLINKS - followed, |parts|
  {
    if parts == [] then Found(here, followed)
    else match MoveOf(fs, here, parts, followed)
      case Stop(end) => end
      case Go(here', parts', followed') => Lookup(fs, here', parts', followed')
  }

  lemma StepInto(fs: Tree, here: Path, c: string, rest: Path, followed: nat)
    requires followed <= MAX_SYMLINKS && c != ".." && IsDir(fs, here + [c])
    ensures Lookup(fs, here, [c] + rest, followed) == Lookup(fs, here + [c], rest, followed)
  {
    assert ([c] + rest)[1..] == rest;
  }

  lemma StepLink(fs: Tree, here: Path, c: string, rest: Path, followed: nat, text: string)
    requires followed < MAX_SYMLINKS && c != ".."
    requires here + [c] in fs && fs[here + [c]] == Symlink(Some(text))
    ensures Lookup(fs, here, [c] + rest, followed) ==
            Lookup(fs, LinkStart(here, text), Components(text) + rest, followed + 1)
  {
    assert ([c] + rest)[1..] == rest;
  }

  /** A link the walk follows: the directory its text is applied to, and its components. */
  datatype Hop = Hop(start: Path, parts: Path)

  /** The links followed by a walk, in order. */
  ghost function Hops(fs: Tree, pending: Path, resolved: Path, followed: nat, mkdir: Path -> Creation): seq<Hop>
    requires followed <= MAX_SYMLINKS
    decreases MAX_SYMLINKS - followed, |pending|
  {
    if pending == [] then []
    else match TakeTurn(fs, pending, resolved, followed, mkdir)
      case Done(_, _) => []
      case Next(tree, pending', resolved', followed') =>
        HopAt(fs, resolved + [pending[0]], resolved) + Hops(tree, pending', resolved', followed', mkdir)
  }

  ghost function HopAt(fs: Tree, at: Path, resolved: Path): seq<Hop> {
    if at in fs && fs[at].Symlink? && fs[at].target.Some? then
      [Hop(LinkStart(resolved, fs[at].target.value), Components(fs[at].target.value))]
    else []
  }

  predicate EndsInDots(parts: Path) {
    parts == [] || parts[|parts| - 1] == ".."
  }

  /** A link text up to its last "..": the part that a lexical reading may get wrong. */
  function Climb(parts: Path): (pre: Path)
    ensures pre <= parts && EndsInDots(pre) && ".." !in parts[|pre|..]
  {
    if EndsInDots(parts) then parts
    else
      var n := |parts| - 1;
      var pre := Climb(parts[..n]);
      assert parts[|pre|..] == parts[..n][|pre|..] + [parts[n]];
      pre
  }

  /** What becomes of the followed links in the reference: up to its last ".." each text really
      leads where the lexical reading puts it, or one leads nowhere, or one leads elsewhere. */
  datatype Fate = Lands | Fails | Strays

  ghost function FateOf(fs: Tree, hops: seq<Hop>, followed: nat): Fate
    requires followed <= MAX_SYMLINKS
    decreases |hops|
  {
    if hops == [] then Lands
    else if followed == MAX_SYMLINKS then Fails
    else
      var pre := Climb(hops[0].parts);
      match Lookup(fs, hops[0].start, pre, followed + 1)
      case Found(p, followed') =>
        if Normalize(hops[0].start, pre) == Some(p) then FateOf(fs, hops[1..], followed') else Strays
      case _ => Fails
  }

  /** Looking up real directories from the root leads to them. */
  lemma {:induction false} ThroughDirectories(fs: Tree, done: Path, ahead: Path, more: Path, followed: nat)
    requires followed <= MAX_SYMLINKS
    requires Names(done + ahead) && Directories(fs, done + ahead)
    ensures Lookup(fs, done, ahead + more, followed) == Lookup(fs, done + ahead, more, followed)
    decreases |ahead|
  {
    if ahead == [] {
      assert ahead + more == more && done + ahead == done;
    } else {
      var done' := done + [ahead[0]];
      assert done' + ahead[1..] == done + ahead && (done + ahead)[..|done'|] == done';
      assert (done + ahead)[|done|] == ahead[0];
      assert (ahead + more)[1..] == ahead[1..] + more;
      ThroughDirectories(fs, done', ahead[1..], more, followed);
    }
  }

  lemma {:induction false} PlainNormalize(start: Path, parts: Path)
    requires ".." !in parts
    ensures Normalize(start, parts) == Some(start + parts)
    decreases |parts|
  {
    if parts == [] {
      assert start + parts == start;
    } else {
      assert parts[0] in parts;
      PlainNormalize(start + [parts[0]], parts[1..]);
      assert start + [parts[0]] + parts[1..] == start + parts;
    }
  }

  lemma {:induction false} NormalizeAppend(start: Path, a: Path, b: Path)
    ensures Normalize(start, a + b) ==
            if Normalize(start, a).None? then None else Normalize(Normalize(start, a).value, b)
    decreases |a|
  {
    if a == [] {
      assert a + b == b;
    } else {
      assert (a + b)[1..] == a[1..] + b;
      if a[0] != ".." {
        NormalizeAppend(start + [a[0]], a[1..], b);
      } else if start != [] {
        NormalizeAppend(Front(start), a[1..], b);
      }
    }
  }

  /** What follows the last ".." is appended. */
  lemma LexicalTarget(start: Path, parts: Path)
    requires Normalize(start, parts).Some?
    ensures var pre := Climb(parts);
            && Normalize(start, pre).Some?
            && Normalize(start, parts).value == Normalize(start, pre).value + parts[|pre|..]
  {
    var pre := Climb(parts);
    assert parts == pre + parts[|pre|..];
    NormalizeAppend(start, pre, parts[|pre|..]);
    PlainNormalize(Normalize(start, pre).value, parts[|pre|..]);
  }

  lemma DirectoriesOneMore(fs: Tree, p: Path, c: string)
    requires Directories(fs, p) && IsDir(fs, p + [c])
    ensures Directories(fs, p + [c])
  {
    assert forall k :: 1 <= k <= |p| ==> (p + [c])[..k] == p[..k];
    assert (p + [c])[..|p| + 1] == p + [c];
  }

  lemma DirectoriesFront(fs: Tree, p: Path)
    requires Directories(fs, p) && p != []
    ensures Directories(fs, Front(p))
  {
    assert forall k :: 1 <= k <= |p| - 1 ==> Front(p)[..k] == p[..k];
  }

  /** A lookup goes on from where its beginning ends. */
  ghost predicate Resumes(fs: Tree, here: Path, pre: Path, more: Path, followed: nat)
    requires followed <= MAX_SYMLINKS
  {
    var far := Lookup(fs, here, pre + more, followed);
    match Lookup(fs, here, pre, followed)
    case Found(p, followed') => Names(p) && Directories(fs, p) && far == Lookup(fs, p, more, followed')
    case _ => !far.Found?
  }

  /** Components that climb out of whatever they enter, from a real directory. */
  ghost predicate Climbs(fs: Tree, here: Path, parts: Path) {
    && Names(here) && Directories(fs, here)
    && EndsInDots(parts) && forall i :: 0 <= i < |parts| ==> Component(parts[i])
  }

  /** More components behind do not change a move that is not the last. */
  lemma MoveExtends(fs: Tree, here: Path, pre: Path, more: Path, followed: nat)
    requires pre != [] && Climbs(fs, here, pre)
    ensures match MoveOf(fs, here, pre, followed)
            case Stop(end) => !end.Found? && MoveOf(fs, here, pre + more, followed) == Stop(end)
            case Go(here', pre', followed') =>
              Climbs(fs, here', pre') && MoveOf(fs, here, pre + more, followed) == Go(here', pre' + more, followed')
  {
    var at, rest := here + [pre[0]], pre[1..];
    assert (pre + more)[1..] == rest + more;
    if pre[0] == ".." {
      if here != [] { DirectoriesFront(fs, here); }
    } else if IsDir(fs, at) {
      DirectoriesOneMore(fs, here, pre[0]);
    } else if at in fs && fs[at].Symlink? && fs[at].target.Some? {
      LinkClimbs(fs, here, fs[at].target.value, rest, more);
    }
  }

  lemma LinkClimbs(fs: Tree, here: Path, text: string, rest: Path, more: Path)
    requires Climbs(fs, here, rest) && rest != []
    ensures Climbs(fs, here, Components(text) + rest) && Climbs(fs, [], Components(text) + rest)
    ensures Components(text) + rest + more == Components(text) + (rest + more)
  {
  }

  lemma {:induction false} LookupResumes(fs: Tree, here: Path, pre: Path, more: Path, followed: nat)
    requires followed <= MAX_SYMLINKS && Climbs(fs, here, pre)
    ensures Resumes(fs, here, pre, more, followed)
    decreases MAX_SYMLINKS - followed, |pre|
  {
    if pre == [] {
      assert pre + more == more;
    } else {
      MoveExtends(fs, here, pre, more, followed);
      match MoveOf(fs, here, pre, followed)
      case Stop(_) =>
      case Go(here', pre', followed') => LookupResumes(fs, here', pre', more, followed');
    }
  }

  lemma DirectoriesGrow(fs: Tree, fs': Tree, p: Path)
    requires GrownBy(fs, fs') && Directories(fs, p)
    ensures Directories(fs', p)
  {
  }

  lemma FromTheRoot(fs: Tree, p: Path, post: Path, more: Path, g: nat)
    requires g <= MAX_SYMLINKS && Names(p) && Directories(fs, p)
    ensures Lookup(fs, [], p + post + more, g) == Lookup(fs, p, post + more, g)
  {
    assert [] + p == p && p + post + more == p + (post + more);
    ThroughDirectories(fs, [], p, post + more, g);
  }

  /** A link text applied really and lexically: the two lead on to the same place if they do so
      up to the last "..", and if that leads nowhere the whole does not. */
  lemma TextAgrees(fs: Tree, start: Path, parts: Path, more: Path, g: nat)
    requires g <= MAX_SYMLINKS && Names(start) && Directories(fs, start)
    requires Normalize(start, parts).Some? && forall i :: 0 <= i < |parts| ==> Component(parts[i])
    ensures var far := Lookup(fs, start, parts + more, g);
            match Lookup(fs, start, Climb(parts), g)
            case Found(p, g') =>
              Normalize(start, Climb(parts)) == Some(p) ==>
                far == Lookup(fs, [], Normalize(start, parts).value + more, g')
            case _ => !far.Found?
  {
    var pre := Climb(parts);
    var post := parts[|pre|..];
    assert parts + more == pre + (post + more);
    LookupResumes(fs, start, pre, post + more, g);
    LexicalTarget(start, parts);
    match Lookup(fs, start, pre, g) {
      case Found(p, g') => FromTheRoot(fs, p, post, more, g');
      case _ =>
    }
  }

  /** One followed link, seen from both sides. The reference has followed `g` links so far. */
  lemma HopAgrees(fs: Tree, fs': Tree, pending: Path, resolved: Path, g: nat)
    requires pending != [] && Sound(fs, pending, resolved) && GrownBy(fs, fs')
    requires var at := resolved + [pending[0]]; at in fs && fs[at].Symlink? && fs[at].target.Some?
    requires g < MAX_SYMLINKS
    requires var hop := HopAt(fs, resolved + [pending[0]], resolved)[0]; Normalize(hop.start, hop.parts).Some?
    ensures var hop := HopAt(fs, resolved + [pending[0]], resolved)[0];
            var pre := Climb(hop.parts);
            var far := Lookup(fs', resolved, pending, g);
            match Lookup(fs', hop.start, pre, g + 1)
            case Found(p, g') =>
              Normalize(hop.start, pre) == Some(p) ==>
                far == Lookup(fs', [], Normalize(hop.start, hop.parts).value + pending[1..], g')
            case _ => !far.Found?
  {
    var hop := HopAt(fs, resolved + [pending[0]], resolved)[0];
    DirectoriesGrow(fs, fs', resolved);
    assert MoveOf(fs', resolved, pending, g) == Go(hop.start, hop.parts + pending[1..], g + 1);
    TextAgrees(fs', hop.start, hop.parts, pending[1..], g + 1);
  }

  /** A turn that follows no link is a step of the reference on the final tree. */
  lemma PlainTurn(fs: Tree, fs': Tree, pending: Path, resolved: Path, followed: nat, mkdir: Path -> Creation, g: nat)
    requires pending != [] && Sound(fs, pending, resolved) && followed <= MAX_SYMLINKS && g <= MAX_SYMLINKS
    requires var turn := TakeTurn(fs, pending, resolved, followed, mkdir);
             turn.Next? && GrownBy(turn.tree, fs') && (turn.pending == [] ==> fs' == turn.tree)
    requires HopAt(fs, resolved + [pending[0]], resolved) == []
    ensures var turn := TakeTurn(fs, pending, resolved, followed, mkdir);
            Lookup(fs', resolved, pending, g) == Lookup(fs', turn.resolved, turn.pending, g)
  {
  }

  /** What the two sides say of each other, for a walk that has ended at `p`. */
  ghost predicate Meets(fate: Fate, far: Reached, p: Path) {
    && (fate == Lands ==> far.Found? && far.path == p)
    && (fate == Fails ==> !far.Found?)
  }

  /** How many links the reference has followed after a turn of the walk. */
  ghost function Counted(fs: Tree, first: seq<Hop>, g: nat): (g': nat)
    requires g <= MAX_SYMLINKS
    ensures g' <= MAX_SYMLINKS
  {
    if first == [] || g == MAX_SYMLINKS then g
    else match Lookup(fs, first[0].start, Climb(first[0].parts), g + 1) case Found(_, g') => g' case _ => g
  }

  lemma TurnMeets(fs: Tree, fs': Tree, pending: Path, resolved: Path, followed: nat, mkdir: Path -> Creation,
                  later: seq<Hop>, p: Path, g: nat)
    requires pending != [] && Sound(fs, pending, resolved) && followed <= MAX_SYMLINKS && g <= MAX_SYMLINKS
    requires var turn := TakeTurn(fs, pending, resolved, followed, mkdir);
             var g' := Counted(fs', HopAt(fs, resolved + [pending[0]], resolved), g);
             && turn.Next? && GrownBy(fs, fs') && GrownBy(turn.tree, fs') && (turn.pending == [] ==> fs' == turn.tree)
             && Meets(FateOf(fs', later, g'), Lookup(fs', turn.resolved, turn.pending, g'), p)
    ensures var first := HopAt(fs, resolved + [pending[0]], resolved);
            Meets(FateOf(fs', first + later, g), Lookup(fs', resolved, pending, g), p)
  {
    var first := HopAt(fs, resolved + [pending[0]], resolved);
    if first == [] {
      assert first + later == later;
      PlainTurn(fs, fs', pending, resolved, followed, mkdir, g);
    } else {
      assert (first + later)[0] == first[0] && (first + later)[1..] == later;
      if g < MAX_SYMLINKS {
        HopAgrees(fs, fs', pending, resolved, g);
      }
    }
  }

  lemma GrowthAdds(fs: Tree, mid: Tree, fs': Tree)
    requires GrownBy(fs, mid) && GrownBy(mid, fs')
    ensures GrownBy(fs, fs')
  {
  }

  /** If the walk ends well, the reference ends at the same path on the final tree when the
      followed links land, and nowhere when one of them fails. */
  lemma {:induction false} WalkMeetsReference(fs: Tree, pending: Path, resolved: Path, followed: nat,
                                              mkdir: Path -> Creation, g: nat)
    requires followed <= MAX_SYMLINKS && Sound(fs, pending, resolved) && g <= MAX_SYMLINKS
    requires Walk(fs, pending, resolved, followed, mkdir).0.Ok?
    ensures var (r, fs') := Walk(fs, pending, resolved, followed, mkdir);
            var hops := Hops(fs, pending, resolved, followed, mkdir);
            Meets(FateOf(fs', hops, g), Lookup(fs', resolved, pending, g), r.value)
    decreases MAX_SYMLINKS - followed, |pending|
  {
    if pending != [] {
      var (r, fs') := Walk(fs, pending, resolved, followed, mkdir);
      TurnIsSound(fs, pending, resolved, followed, mkdir);
      match TakeTurn(fs, pending, resolved, followed, mkdir)
      case Done(_, _) =>
      case Next(tree, pending', resolved', followed') =>
        WalkIsSound(tree, pending', resolved', followed', mkdir);
        var g' := Counted(fs', HopAt(fs, resolved + [pending[0]], resolved), g);
        WalkMeetsReference(tree, pending', resolved', followed', mkdir, g');
        GrowthAdds(fs, tree, fs');
        TurnMeets(fs, fs', pending, resolved, followed, mkdir, Hops(tree, pending', resolved', followed', mkdir),
            r.value, g);
    }
  }

  /** The resolver against the reference, from the root: unless a followed link strays, the
      reference finds the same path exactly when all of them land. */
  lemma ResolvedTargetIsTheReferenceTarget(fs: Tree, relative: string, mkdir: Path -> Creation)
    requires [] !in fs && ResolveSpec(fs, relative, mkdir).0.Ok?
    ensures var (r, fs') := ResolveSpec(fs, relative, mkdir);
            var fate := FateOf(fs', Hops(fs, Components(relative), [], 0, mkdir), 0);
            var far := Lookup(fs', [], Components(relative), 0);
            && (fate == Lands ==> far.Found? && far.path == r.value)
            && (fate == Fails ==> !far.Found?)
  {
    var parts := Components(relative);
    forall i | 0 <= i < |parts| ensures Name(parts[i]) { assert parts[i] in parts; }
    WalkMeetsReference(fs, parts, [], 0, mkdir, 0);
  }

  // ---------------------------------------------------------------------------------------
  // Conditions on the links

  /** Every component of the text names a real directory. */
  ghost predicate Solid(fs: Tree, start: Path, parts: Path)
    decreases |parts|
  {
    parts != [] ==>
      if parts[0] == ".." then start != [] && Solid(fs, Front(start), parts[1..])
      else IsDir(fs, start + [parts[0]]) && Solid(fs, start + [parts[0]], parts[1..])
  }

  /** No component of the text names a link. */
  ghost predicate Linkless(fs: Tree, start: Path, parts: Path)
    decreases |parts|
  {
    parts != [] ==>
      if parts[0] == ".." then start != [] && Linkless(fs, Front(start), parts[1..])
      else
        var at := start + [parts[0]];
        (at in fs ==> !fs[at].Symlink?) && Linkless(fs, at, parts[1..])
  }

  /** Every component that stands before some ".." of a followed link names a real directory. */
  ghost predicate AllSolid(fs: Tree, hops: seq<Hop>) {
    forall i :: 0 <= i < |hops| ==> Solid(fs, hops[i].start, Climb(hops[i].parts))
  }

  ghost predicate AllLinkless(fs: Tree, hops: seq<Hop>) {
    forall i :: 0 <= i < |hops| ==> Linkless(fs, hops[i].start, Climb(hops[i].parts))
  }

  lemma {:induction false} SolidTextsLand(fs: Tree, start: Path, parts: Path, followed: nat)
    requires followed <= MAX_SYMLINKS && Solid(fs, start, parts)
    ensures Normalize(start, parts).Some?
    ensures Lookup(fs, start, parts, followed) == Found(Normalize(start, parts).value, followed)
    decreases |parts|
  {
    if parts != [] {
      SolidTextsLand(fs, if parts[0] == ".." then Front(start) else start + [parts[0]], parts[1..], followed);
    }
  }

  lemma {:induction false} OtherTextsFail(fs: Tree, start: Path, parts: Path, followed: nat)
    requires followed <= MAX_SYMLINKS && EndsInDots(parts)
    requires Linkless(fs, start, parts) && !Solid(fs, start, parts)
    ensures !Lookup(fs, start, parts, followed).Found?
    decreases |parts|
  {
    if parts[0] == ".." {
      OtherTextsFail(fs, Front(start), parts[1..], followed);
    } else if IsDir(fs, start + [parts[0]]) {
      OtherTextsFail(fs, start + [parts[0]], parts[1..], followed);
    }
  }

  lemma FirstLands(fs: Tree, hops: seq<Hop>, followed: nat)
    requires hops != [] && followed < MAX_SYMLINKS && Solid(fs, hops[0].start, Climb(hops[0].parts))
    ensures FateOf(fs, hops, followed) == FateOf(fs, hops[1..], followed + 1)
  {
    SolidTextsLand(fs, hops[0].start, Climb(hops[0].parts), followed + 1);
  }

  lemma FirstFails(fs: Tree, hops: seq<Hop>, followed: nat)
    requires hops != [] && followed < MAX_SYMLINKS
    requires Linkless(fs, hops[0].start, Climb(hops[0].parts)) && !Solid(fs, hops[0].start, Climb(hops[0].parts))
    ensures FateOf(fs, hops, followed) == Fails
  {
    OtherTextsFail(fs, hops[0].start, Climb(hops[0].parts), followed + 1);
  }

  lemma {:induction false} SolidLinksLand(fs: Tree, hops: seq<Hop>, followed: nat)
    requires followed + |hops| <= MAX_SYMLINKS && AllSolid(fs, hops)
    ensures FateOf(fs, hops, followed) == Lands
    decreases |hops|
  {
    if hops != [] {
      SplitHops(fs, hops);
      FirstLands(fs, hops, followed);
      SolidLinksLand(fs, hops[1..], followed + 1);
    }
  }

  lemma {:induction false} OtherLinksFail(fs: Tree, hops: seq<Hop>, followed: nat)
    requires followed + |hops| <= MAX_SYMLINKS && AllLinkless(fs, hops) && !AllSolid(fs, hops)
    ensures FateOf(fs, hops, followed) == Fails
    decreases |hops|
  {
    SplitHops(fs, hops);
    if Solid(fs, hops[0].start, Climb(hops[0].parts)) {
      FirstLands(fs, hops, followed);
      OtherLinksFail(fs, hops[1..], followed + 1);
    } else {
      FirstFails(fs, hops, followed);
    }
  }

  lemma SplitHops(fs: Tree, hops: seq<Hop>)
    requires hops != []
    ensures AllSolid(fs, hops) <==> Solid(fs, hops[0].start, Climb(hops[0].parts)) && AllSolid(fs, hops[1..])
    ensures AllLinkless(fs, hops) <==>
            Linkless(fs, hops[0].start, Climb(hops[0].parts)) && AllLinkless(fs, hops[1..])
  {
    assert forall i :: 1 <= i < |hops| ==> hops[i] == hops[1..][i - 1];
  }

  /** A walk that ends well follows few links, and none of them leaves the root. */
  lemma {:induction false} HopsOfAWalk(fs: Tree, pending: Path, resolved: Path, followed: nat, mkdir: Path -> Creation)
    requires followed <= MAX_SYMLINKS
    ensures var hops := Hops(fs, pending, resolved, followed, mkdir);
            followed + |hops| <= MAX_SYMLINKS && forall hop <- hops :: Normalize(hop.start, hop.parts).Some?
    decreases MAX_SYMLINKS - followed, |pending|
  {
    if pending != [] {
      match TakeTurn(fs, pending, resolved, followed, mkdir)
      case Done(_, _) =>
      case Next(tree, pending', resolved', followed') => HopsOfAWalk(tree, pending', resolved', followed', mkdir);
    }
  }

  /** If every component before some ".." of a followed link is a real directory, the two
      resolutions agree; if none of those components is a link, only then. */
  lemma SolidLinksResolveAlike(fs: Tree, relative: string, mkdir: Path -> Creation)
    requires [] !in fs && ResolveSpec(fs, relative, mkdir).0.Ok?
    ensures var (r, fs') := ResolveSpec(fs, relative, mkdir);
            var hops := Hops(fs, Components(relative), [], 0, mkdir);
            var far := Lookup(fs', [], Components(relative), 0);
            && (AllSolid(fs', hops) ==> far.Found? && far.path == r.value)
            && (AllLinkless(fs', hops) ==> (far.Found? && far.path == r.value <==> AllSolid(fs', hops)))
  {
    var hops := Hops(fs, Components(relative), [], 0, mkdir);
    HopsOfAWalk(fs, Components(relative), [], 0, mkdir);
    var fs' := ResolveSpec(fs, relative, mkdir).1;
    if AllSolid(fs', hops) {
      SolidLinksLand(fs', hops, 0);
    } else if AllLinkless(fs', hops) {
      OtherLinksFail(fs', hops, 0);
    }
    ResolvedTargetIsTheReferenceTarget(fs, relative, mkdir);
  }

  /** Every ".." of the text is at its front. */
  ghost predicate DotsLead(parts: Path) {
    forall i, j :: 0 <= i < j < |parts| && parts[j] == ".." ==> parts[i] == ".."
  }

  lemma {:induction false} LeadingDotsAreSolid(fs: Tree, start: Path, dots: Path)
    requires Normalize(start, dots).Some? && forall i :: 0 <= i < |dots| ==> dots[i] == ".."
    ensures Solid(fs, start, dots)
    decreases |dots|
  {
    if dots != [] {
      LeadingDotsAreSolid(fs, Front(start), dots[1..]);
    }
  }

  lemma LeadingTextIsSolid(fs: Tree, start: Path, parts: Path)
    requires DotsLead(parts) && Normalize(start, parts).Some?
    ensures Solid(fs, start, Climb(parts))
  {
    LexicalTarget(start, parts);
    LeadingDotsAreSolid(fs, start, Climb(parts));
  }

  /** When every ".." in a followed link is leading, the two resolutions agree. */
  lemma LeadingDotsResolveAlike(fs: Tree, relative: string, mkdir: Path -> Creation)
    requires [] !in fs && ResolveSpec(fs, relative, mkdir).0.Ok?
    requires forall hop <- Hops(fs, Components(relative), [], 0, mkdir) :: DotsLead(hop.parts)
    ensures var (r, fs') := ResolveSpec(fs, relative, mkdir);
            var far := Lookup(fs', [], Components(relative), 0);
            far.Found? && far.path == r.value
  {
    var hops := Hops(fs, Components(relative), [], 0, mkdir);
    var fs' := ResolveSpec(fs, relative, mkdir).1;
    HopsOfAWalk(fs, Components(relative), [], 0, mkdir);
    forall i | 0 <= i < |hops| ensures Solid(fs', hops[i].start, Climb(hops[i].parts)) {
      assert hops[i] in hops;
      LeadingTextIsSolid(fs', hops[i].start, hops[i].parts);
    }
    SolidLinksResolveAlike(fs, relative, mkdir);
  }

  /** In every link of the tree, each ".." is at the front of the text. */
  ghost predicate TextsLead(fs: Tree) {
    forall p <- fs :: fs[p].Symlink? && fs[p].target.Some? ==> DotsLead(Components(fs[p].target.value))
  }

  lemma {:induction false} HopsLead(fs: Tree, pending: Path, resolved: Path, followed: nat, mkdir: Path -> Creation)
    requires followed <= MAX_SYMLINKS && Sound(fs, pending, resolved) && TextsLead(fs)
    ensures forall hop <- Hops(fs, pending, resolved, followed, mkdir) :: DotsLead(hop.parts)
    decreases MAX_SYMLINKS - followed, |pending|
  {
    if pending != [] {
      TurnIsSound(fs, pending, resolved, followed, mkdir);
      match TakeTurn(fs, pending, resolved, followed, mkdir)
      case Done(_, _) =>
      case Next(tree, pending', resolved', followed') =>
        assert TextsLead(tree) by {
          forall p | p in tree && tree[p].Symlink? ensures p in fs && tree[p] == fs[p] { }
        }
        HopsLead(tree, pending', resolved', followed', mkdir);
    }
  }

  /** The same under a condition on the tree alone, before anything is resolved. */
  lemma LeadingTextsResolveAlike(fs: Tree, relative: string, mkdir: Path -> Creation)
    requires [] !in fs && TextsLead(fs) && ResolveSpec(fs, relative, mkdir).0.Ok?
    ensures var (r, fs') := ResolveSpec(fs, relative, mkdir);
            var far := Lookup(fs', [], Components(relative), 0);
            far.Found? && far.path == r.value
  {
    var parts := Components(relative);
    forall i | 0 <= i < |parts| ensures Name(parts[i]) { assert parts[i] in parts; }
    HopsLead(fs, parts, [], 0, mkdir);
    LeadingDotsResolveAlike(fs, relative, mkdir);
  }

  // ---------------------------------------------------------------------------------------
  // What the reference finds is resolved

  /** No link of the tree leads above the root, read lexically from where it stands. */
  ghost predicate TextsStay(fs: Tree) {
    forall p <- fs :: p != [] && fs[p].Symlink? && fs[p].target.Some? ==>
      Normalize(if "/" <= fs[p].target.value then [] else Front(p), Components(fs[p].target.value)).Some?
  }

  /** A link whose dots all lead, seen from the reference. */
  lemma LeadingHop(fs: Tree, start: Path, parts: Path, rest: Path, followed: nat)
    requires followed <= MAX_SYMLINKS && Names(start) && Directories(fs, start) && DotsLead(parts)
    requires Normalize(start, parts).Some? && forall i :: 0 <= i < |parts| ==> Component(parts[i])
    ensures Lookup(fs, start, parts + rest, followed) ==
            Lookup(fs, [], Normalize(start, parts).value + rest, followed)
  {
    LexicalTarget(start, parts);
    LeadingDotsAreSolid(fs, start, Climb(parts));
    SolidTextsLand(fs, start, Climb(parts), followed);
    TextAgrees(fs, start, parts, rest, followed);
  }

  /** A followed link is a move of the reference and a turn of the walk. */
  lemma FoundHop(fs: Tree, pending: Path, resolved: Path, followed: nat, mkdir: Path -> Creation)
    requires followed < MAX_SYMLINKS && pending != [] && Sound(fs, pending, resolved) && TextsLead(fs) && TextsStay(fs)
    requires var at := resolved + [pending[0]]; at in fs && fs[at].Symlink? && fs[at].target.Some?
    ensures var turn := TakeTurn(fs, pending, resolved, followed, mkdir);
            && turn.Next? && turn.tree == fs && turn.followed == followed + 1
            && Lookup(fs, resolved, pending, followed) == Lookup(fs, turn.resolved, turn.pending, turn.followed)
  {
    var c, rest := pending[0], pending[1..];
    var text := fs[resolved + [c]].target.value;
    LinkStays(fs, resolved, c, text);
    assert pending == [c] + rest;
    HopFromBoth(fs, resolved, c, rest, followed, text, mkdir);
  }

  lemma LinkTurn(fs: Tree, resolved: Path, c: string, rest: Path, followed: nat, text: string, mkdir: Path -> Creation)
    requires followed < MAX_SYMLINKS && resolved + [c] in fs && fs[resolved + [c]] == Symlink(Some(text))
    requires Normalize(LinkStart(resolved, text), Components(text)).Some?
    ensures TakeTurn(fs, [c] + rest, resolved, followed, mkdir) ==
            Next(fs, Normalize(LinkStart(resolved, text), Components(text)).value + rest, [], followed + 1)
  {
    assert ([c] + rest)[1..] == rest;
  }

  lemma HopFromBoth(fs: Tree, resolved: Path, c: string, rest: Path, followed: nat, text: string,
                    mkdir: Path -> Creation)
    requires followed < MAX_SYMLINKS && Names(resolved) && Directories(fs, resolved) && c != ".."
    requires resolved + [c] in fs && fs[resolved + [c]] == Symlink(Some(text))
    requires Normalize(LinkStart(resolved, text), Components(text)).Some? && DotsLead(Components(text))
    ensures var target := Normalize(LinkStart(resolved, text), Components(text)).value + rest;
            && TakeTurn(fs, [c] + rest, resolved, followed, mkdir) == Next(fs, target, [], followed + 1)
            && Lookup(fs, resolved, [c] + rest, followed) == Lookup(fs, [], target, followed + 1)
  {
    LinkTurn(fs, resolved, c, rest, followed, text, mkdir);
    StepLink(fs, resolved, c, rest, followed, text);
    LeadingHop(fs, LinkStart(resolved, text), Components(text), rest, followed + 1);
  }

  lemma LinkStays(fs: Tree, resolved: Path, c: string, text: string)
    requires TextsLead(fs) && TextsStay(fs) && resolved + [c] in fs && fs[resolved + [c]] == Symlink(Some(text))
    ensures Normalize(LinkStart(resolved, text), Components(text)).Some? && DotsLead(Components(text))
  {
    assert Front(resolved + [c]) == resolved && (IsAbsolute(text) <==> "/" <= text);
  }

  lemma FoundStep(fs: Tree, pending: Path, resolved: Path, followed: nat, mkdir: Path -> Creation)
    requires followed <= MAX_SYMLINKS && pending != [] && Sound(fs, pending, resolved) && TextsLead(fs) && TextsStay(fs)
    requires Lookup(fs, resolved, pending, followed).Found?
    ensures var turn := TakeTurn(fs, pending, resolved, followed, mkdir);
            && turn.Next? && turn.tree == fs && turn.followed <= MAX_SYMLINKS
            && Lookup(fs, resolved, pending, followed) == Lookup(fs, turn.resolved, turn.pending, turn.followed)
  {
    var at := resolved + [pending[0]];
    if at in fs && fs[at].Symlink? {
      FoundHop(fs, pending, resolved, followed, mkdir);
    }
  }

  /** The walk succeeds, and creates nothing, wherever the reference finds something. */
  lemma {:induction false} FoundIsWalked(fs: Tree, pending: Path, resolved: Path, followed: nat,
                                         mkdir: Path -> Creation)
    requires followed <= MAX_SYMLINKS && Sound(fs, pending, resolved) && TextsLead(fs) && TextsStay(fs)
    requires Lookup(fs, resolved, pending, followed).Found?
    ensures Walk(fs, pending, resolved, followed, mkdir) == (Ok(Lookup(fs, resolved, pending, followed).path), fs)
    decreases MAX_SYMLINKS - followed, |pending|
  {
    if pending != [] {
      FoundStep(fs, pending, resolved, followed, mkdir);
      TurnIsSound(fs, pending, resolved, followed, mkdir);
      var turn := TakeTurn(fs, pending, resolved, followed, mkdir);
      WalkOn(fs, pending, resolved, followed, mkdir, turn);
      FoundIsWalked(fs, turn.pending, turn.resolved, turn.followed, mkdir);
    }
  }

  /** Where links lead up only at their front and not above the root, every target that the
      reference finds is resolved to the same path, and the tree stays as it is. */
  lemma FoundTargetsResolve(fs: Tree, relative: string, mkdir: Path -> Creation)
    requires [] !in fs && TextsLead(fs) && TextsStay(fs)
    requires !IsAbsolute(relative) && ".." !in Components(relative) && Components(relative) != []
    requires Lookup(fs, [], Components(relative), 0).Found?
    ensures ResolveSpec(fs, relative, mkdir) == (Ok(Lookup(fs, [], Components(relative), 0).path), fs)
  {
    var parts := Components(relative);
    forall i | 0 <= i < |parts| ensures Name(parts[i]) { assert parts[i] in parts; }
    FoundIsWalked(fs, parts, [], 0, mkdir);
  }

  // ---------------------------------------------------------------------------------------
  // Single links

  /** Walking over real directories leads to them. */
  lemma {:induction false} WalkThrough(fs: Tree, done: Path, ahead: Path, more: Path, followed: nat,
                                       mkdir: Path -> Creation)
    requires followed <= MAX_SYMLINKS && Directories(fs, done + ahead)
    ensures Walk(fs, ahead + more, done, followed, mkdir) == Walk(fs, more, done + ahead, followed, mkdir)
    decreases |ahead|
  {
    if ahead == [] {
      assert ahead + more == more && done + ahead == done;
    } else {
      var done' := done + [ahead[0]];
      assert done' + ahead[1..] == done + ahead && (done + ahead)[..|done'|] == done';
      assert (ahead + more)[1..] == ahead[1..] + more;
      WalkOn(fs, ahead + more, done, followed, mkdir, Next(fs, ahead[1..] + more, done', followed));
      WalkThrough(fs, done', ahead[1..], more, followed, mkdir);
    }
  }

  lemma WalkToMissing(fs: Tree, p: Path, b: string, followed: nat, mkdir: Path -> Creation)
    requires followed <= MAX_SYMLINKS && Directories(fs, p) && p + [b] !in fs
    ensures Walk(fs, p + [b], [], followed, mkdir) == (Ok(p + [b]), fs)
  {
    assert [] + p == p && [b][1..] == [];
    WalkThrough(fs, [], p, [b], followed, mkdir);
    WalkOn(fs, [b], p, followed, mkdir, Next(fs, [], p + [b], followed));
  }

  /** The walk and the reference up to a link at the end of real directories. */
  lemma ToTheLink(fs: Tree, p: Path, l: string, text: string, mkdir: Path -> Creation)
    requires Names(p) && Directories(fs, p) && Name(l) && p + [l] in fs && fs[p + [l]] == Symlink(Some(text))
    ensures ResolveSpec(fs, TextOf(p + [l]), mkdir) == Walk(fs, [l], p, 0, mkdir)
    ensures Lookup(fs, [], p + [l], 0) == Lookup(fs, p, [l], 0)
  {
    FromText(fs, p + [l], mkdir);
    assert [] + p == p;
    WalkThrough(fs, [], p, [l], 0, mkdir);
    ThroughDirectories(fs, [], p, [l], 0);
  }

  /** A target below real directories, of which the rest is missing, is resolved to itself exactly
      if its parents can be made, and then they are. */
  lemma MissingTargetsResolve(fs: Tree, p: Path, missing: Path, mkdir: Path -> Creation)
    requires Rooted(fs) && Names(p + missing) && Directories(fs, p)
    requires missing != [] && p + [missing[0]] !in fs
    ensures var (r, fs') := ResolveSpec(fs, TextOf(p + missing), mkdir);
            && (r.Ok? <==> CanMake(mkdir, p, missing))
            && (r.Ok? ==> r.value == p + missing && fs' == Built(fs, p, missing))
  {
    FromText(fs, p + missing, mkdir);
    assert [] + p == p;
    WalkThrough(fs, [], p, missing, 0, mkdir);
    MissingTail(fs, missing, p, 0, mkdir);
  }

  /** Resolving the text of a path is walking its names. */
  lemma FromText(fs: Tree, p: Path, mkdir: Path -> Creation)
    requires Names(p) && p != []
    ensures ResolveSpec(fs, TextOf(p), mkdir) == Walk(fs, p, [], 0, mkdir)
  {
    TextReadsBack(p);
    assert ".." !in p;
  }

  /** A link to a name resolves beside the link, in the directory that holds it. */
  lemma RelativeLinkResolves(fs: Tree, p: Path, l: string, b: string, mkdir: Path -> Creation)
    requires Names(p) && Directories(fs, p) && Name(l) && Name(b)
    requires p + [l] in fs && fs[p + [l]] == Symlink(Some(b)) && p + [b] !in fs
    ensures ResolveSpec(fs, TextOf(p + [l]), mkdir) == (Ok(p + [b]), fs)
    ensures Lookup(fs, [], p + [l], 0) == Found(p + [b], 1)
  {
    ToTheLink(fs, p, l, b, mkdir);
    NoSlash(b);
    assert !IsAbsolute(b) && !("/" <= b) && [l][1..] == [] && [b] + [] == [b] && p + [b] + [] == p + [b];
    PlainNormalize(p, [b]);
    WalkOn(fs, [l], p, 0, mkdir, Next(fs, p + [b], [], 1));
    WalkToMissing(fs, p, b, 1, mkdir);
    assert MoveOf(fs, p, [l], 0) == Go(p, [b], 1);
    LastMissing(fs, p, b, 1);
  }

  /** A link to a name behind a slash resolves in the root, wherever the link stands. */
  lemma AbsoluteLinkResolves(fs: Tree, p: Path, l: string, b: string, mkdir: Path -> Creation)
    requires Names(p) && Directories(fs, p) && Name(l) && Name(b)
    requires p + [l] in fs && fs[p + [l]] == Symlink(Some("/" + b)) && [b] !in fs
    ensures ResolveSpec(fs, TextOf(p + [l]), mkdir) == (Ok([b]), fs)
    ensures Lookup(fs, [], p + [l], 0) == Found([b], 1)
  {
    ToTheLink(fs, p, l, "/" + b, mkdir);
    NoSlash(b);
    LeadingSlash(b);
    assert [l][1..] == [] && [b] + [] == [b] && [] + [b] == [b];
    PlainNormalize([], [b]);
    WalkOn(fs, [l], p, 0, mkdir, Next(fs, [b], [], 1));
    WalkToMissing(fs, [], b, 1, mkdir);
    assert MoveOf(fs, p, [l], 0) == Go([], [b], 1);
    LastMissing(fs, [], b, 1);
  }

  /** A link text with an inner ".." over a link, for any names: the walk ends at the sibling in
      the root, while the reference goes through the second link and ends beside what it points
      to. */
  lemma InnerDotsResolveElsewhere(fs: Tree, l: string, a: string, b: string, d: string, e: string,
                                  mkdir: Path -> Creation)
    requires Name(l) && Name(a) && Name(b) && Name(d) && Name(e)
    requires [l] in fs && fs[[l]] == Symlink(Some(a + "/" + (".." + "/" + b)))
    requires [a] in fs && fs[[a]] == Symlink(Some(d + "/" + e))
    requires IsDir(fs, [d]) && IsDir(fs, [d, e]) && [b] !in fs && [d, b] !in fs
    ensures ResolveSpec(fs, l, mkdir) == (Ok([b]), fs)
    ensures Lookup(fs, [], Components(l), 0) == Found([d, b], 2)
  {
    UpText(a, b);
    SplitsAtSlash(d, e);
    NoSlash(e);
    NoSlash(l);
    ResolvesBeside(fs, a + "/" + (".." + "/" + b), l, a, b, mkdir);
    SwapLink(fs, a + "/" + (".." + "/" + b), d + "/" + e, l, a, b, d, e);
  }

  lemma UpText(a: string, b: string)
    requires Name(a) && Name(b)
    ensures Components(a + "/" + (".." + "/" + b)) == [a, "..", b]
  {
    SplitsAtSlash(a, ".." + "/" + b);
    SplitsAtSlash("..", b);
    NoSlash(b);
  }

  lemma SwapLink(fs: Tree, outer: string, inner: string, l: string, a: string, b: string, d: string, e: string)
    requires !IsAbsolute(outer) && Components(outer) == [a, "..", b]
    requires !IsAbsolute(inner) && Components(inner) == [d, e]
    requires l != ".." && a != ".." && b != ".." && d != ".." && e != ".."
    requires [l] in fs && fs[[l]] == Symlink(Some(outer)) && [a] in fs && fs[[a]] == Symlink(Some(inner))
    requires IsDir(fs, [d]) && IsDir(fs, [d, e]) && [d, b] !in fs
    ensures Lookup(fs, [], [l], 0) == Found([d, b], 2)
  {
    assert [] + [l] == [l] && [] + [a] == [a];
    StepLink(fs, [], l, [], 0, outer);
    assert [l] + [] == [l] && [a, "..", b] + [] == [a] + ["..", b];
    StepLink(fs, [], a, ["..", b], 1, inner);
    assert [d, e] + ["..", b] == [d] + ([e] + ["..", b]);
    DownAndUp(fs, d, e, b);
  }

  lemma DownAndUp(fs: Tree, d: string, e: string, b: string)
    requires b != ".." && d != ".." && e != ".."
    requires IsDir(fs, [d]) && IsDir(fs, [d, e]) && [d, b] !in fs
    ensures Lookup(fs, [], [d] + ([e] + ["..", b]), 2) == Found([d, b], 2)
  {
    assert [] + [d] == [d] && [d] + [e] == [d, e] && Front([d, e]) == [d] && ["..", b][1..] == [b];
    StepInto(fs, [], d, [e] + ["..", b], 2);
    StepInto(fs, [d], e, ["..", b], 2);
    assert [d] + [b] == [d, b];
    LastMissing(fs, [d], b, 2);
  }

  lemma LastMissing(fs: Tree, here: Path, b: string, followed: nat)
    requires followed <= MAX_SYMLINKS && b != ".." && here + [b] !in fs
    ensures Lookup(fs, here, [b], followed) == Found(here + [b], followed)
  {
  }

  lemma UpAndBeside(a: string, b: string)
    requires a != ".." && b != ".."
    ensures Normalize([], [a, "..", b]) == Some([b])
  {
    var parts := [a, "..", b];
    assert parts[1..] == ["..", b] && parts[1..][1..] == [b] && [] + [a] == [a] && Front([a]) == [];
    assert Normalize([], parts) == Normalize([a], parts[1..]);
    assert Normalize([a], parts[1..]) == Normalize([], [b]);
    PlainNormalize([], [b]);
    assert [] + [b] == [b];
  }

  lemma ResolvesBeside(fs: Tree, text: string, l: string, a: string, b: string, mkdir: Path -> Creation)
    requires !IsAbsolute(text) && Components(text) == [a, "..", b] && a != ".." && b != ".."
    requires !IsAbsolute(l) && Components(l) == [l] && l != ".."
    requires [l] in fs && fs[[l]] == Symlink(Some(text)) && [b] !in fs
    ensures ResolveSpec(fs, l, mkdir) == (Ok([b]), fs)
  {
    assert ".." !in [l];
    assert [] + [l] == [l] && [l][1..] == [] && [b] + [] == [b] && [] + [b] == [b] && [b][1..] == [];
    UpAndBeside(a, b);
    WalkOn(fs, [l], [], 0, mkdir, Next(fs, [b], [], 1));
    WalkOn(fs, [b], [], 1, mkdir, Next(fs, [], [b], 1));
  }

  /** A leading slash adds no component. */
  lemma LeadingSlash(t: string)
    ensures IsAbsolute("/" + t) && Components("/" + t) == Components(t)
  {
    var s := "/" + t;
    assert s[0] == '/' && s[..0] == "" && s[1..] == t;
  }

  /** A "." in front of a slash adds none either. */
  lemma LeadingDot(t: string)
    ensures Components("." + "/" + t) == Components(t)
  {
    var s := "." + "/" + t;
    SlashAfter(".", t);
    assert s[..1] == "." && s[2..] == t;
  }

  /** The text of a path, its components joined by slashes. */
  function TextOf(p: Path): string {
    if p == [] then "" else if |p| == 1 then p[0] else p[0] + "/" + TextOf(p[1..])
  }

  /** Names written as a text are read back as its components, from the directory it starts in. */
  lemma {:induction false} TextReadsBack(p: Path)
    requires Names(p)
    ensures Components(TextOf(p)) == p && !IsAbsolute(TextOf(p))
    decreases |p|
  {
    if |p| == 1 {
      NoSlash(p[0]);
      assert p == [p[0]];
    } else if |p| > 1 {
      var rest := p[1..];
      TextReadsBack(rest);
      SplitsAtSlash(p[0], TextOf(rest));
      StartsHere(p[0], TextOf(rest));
      assert p == [p[0]] + rest;
    }
  }

  lemma StartsHere(name: string, more: string)
    requires Name(name)
    ensures !IsAbsolute(name + "/" + more)
  {
    assert (name + "/" + more)[0] == name[0];
  }

  lemma NoSlash(t: string)
    requires '/' !in t && t != "" && t != "."
    ensures Components(t) == [t]
  {
    assert FirstSlash(t) == |t| && t[..|t|] == t;
  }

  lemma SplitsAtSlash(head: string, tail: string)
    requires '/' !in head && head != "" && head != "."
    ensures Components(head + "/" + tail) == [head] + Components(tail)
  {
    var t := head + "/" + tail;
    SlashAfter(head, tail);
    assert t[..|head|] == head && t[|head| + 1..] == tail;
  }

  lemma SlashAfter(head: string, tail: string)
    requires '/' !in head
    ensures FirstSlash(head + "/" + tail) == |head|
  {
    var t := head + "/" + tail;
    var n := FirstSlash(t);
    assert t[|head|] == '/' && forall i :: 0 <= i < |head| ==> t[i] == head[i];
    assert forall i :: 0 <= i < n ==> t[..n][i] == t[i];
  }
}
