/** Resolving a generated file's target inside the image root: symbolic links are followed with
    chroot semantics, missing parents are created on the way, and the walk starts over at the
    root after every link. */
module Resolver {
  import opened Bytes

  const MAX_SYMLINKS := 40

  type Path = seq<string>

  /** What lstat finds at a path. `Symlink(None)` is a link that cannot be read. */
  datatype Node = Directory | Symlink(target: Option<string>) | Other | Unreadable

  /** Everything below the image root, keyed by components; the root itself is the empty path. */
  type Tree = map<Path, Node>

  datatype Error = Absolute | NotNormalized | Empty | TooManySymlinks | Escapes | NonDirectory | Io

  /** How the outside answers an attempt to create a directory and to set its mode. */
  datatype Creation = Refused | ModeRefused | Made

  // ---------------------------------------------------------------------------------------
  // Path text

  function FirstSlash(t: string): (n: nat)
    ensures n <= |t| && '/' !in t[..n] && (n < |t| ==> t[n] == '/')
  {
    if t == [] || t[0] == '/' then 0
    else
      assert t == [t[0]] + t[1..];
      1 + FirstSlash(t[1..])
  }

  ghost predicate Component(c: string) {
    c != "" && c != "." && '/' !in c
  }

  /** A component that names an entry: it cannot leave the directory it is looked up in. */
  ghost predicate Name(c: string) {
    Component(c) && c != ".."
  }

  ghost predicate Names(p: Path) {
    forall i :: 0 <= i < |p| ==> Name(p[i])
  }

  /** The components of a path text: empty parts and "." vanish, ".." stays. */
  function Components(t: string): (parts: Path)
    ensures forall i :: 0 <= i < |parts| ==> Component(parts[i])
    decreases |t|
  {
    if t == "" then []
    else
      var n := FirstSlash(t);
      var rest := if n < |t| then Components(t[n + 1..]) else [];
      if t[..n] == "" || t[..n] == "." then rest else [t[..n]] + rest
  }

  predicate IsAbsolute(t: string) {
    t != "" && t[0] == '/'
  }

  function Front(p: Path): Path
    requires p != []
  {
    p[..|p| - 1]
  }

  /** Lexical application of link components to a starting directory; `None` leaves the root. */
  function Normalize(start: Path, parts: Path): Option<Path>
    decreases |parts|
  {
    if parts == [] then Some(start)
    else if parts[0] != ".." then Normalize(start + [parts[0]], parts[1..])
    else if start == [] then None
    else Normalize(Front(start), parts[1..])
  }

  lemma {:induction false} NormalizeNames(start: Path, parts: Path)
    requires Names(start) && forall i :: 0 <= i < |parts| ==> Component(parts[i])
    ensures Normalize(start, parts).Some? ==> Names(Normalize(start, parts).value)
    decreases |parts|
  {
    if parts != [] {
      if parts[0] != ".." {
        NormalizeNames(start + [parts[0]], parts[1..]);
      } else if start != [] {
        NormalizeNames(Front(start), parts[1..]);
      }
    }
  }

  // ---------------------------------------------------------------------------------------
  // The walk

  /** Where a link's components are applied. */
  function LinkStart(resolved: Path, text: string): Path {
    if IsAbsolute(text) then [] else resolved
  }

  /** One turn of the walk: it ends, or goes on with a new tree, pending list, resolved prefix
      and count of followed links. */
  datatype Turn = Done(result: Result<Path, Error>, tree: Tree)
                | Next(tree: Tree, pending: Path, resolved: Path, followed: nat)

  function FollowTurn(fs: Tree, target: Option<string>, rest: Path, resolved: Path, followed: nat): Turn {
    if followed + 1 > MAX_SYMLINKS then Done(Err(TooManySymlinks), fs)
    else match target
      case None => Done(Err(Io), fs)
      case Some(text) =>
        match Normalize(LinkStart(resolved, text), Components(text))
        case None => Done(Err(Escapes), fs)
        case Some(t) => Next(fs, t + rest, [], followed + 1)
  }

  function MissingTurn(fs: Tree, at: Path, rest: Path, followed: nat, mkdir: Path -> Creation): Turn {
    if rest == [] then Next(fs, rest, at, followed)
    else match mkdir(at)
      case Refused => Done(Err(Io), fs)
      case ModeRefused => Done(Err(Io), fs[at := Directory])
      case Made => Next(fs[at := Directory], rest, at, followed)
  }

  function TakeTurn(fs: Tree, pending: Path, resolved: Path, followed: nat, mkdir: Path -> Creation): Turn
    requires pending != []
  {
    var at, rest := resolved + [pending[0]], pending[1..];
    if at !in fs then MissingTurn(fs, at, rest, followed, mkdir)
    else match fs[at]
      case Symlink(target) => FollowTurn(fs, target, rest, resolved, followed)
      case Unreadable => Done(Err(Io), fs)
      case Directory => Next(fs, rest, at, followed)
      case Other => if rest != [] then Done(Err(NonDirectory), fs) else Next(fs, rest, at, followed)
  }

  /** The whole walk. It ends: every turn spends a link or a pending component. */
  function Walk(fs: Tree, pending: Path, resolved: Path, followed: nat,
                mkdir: Path -> Creation): (Result<Path, Error>, Tree)
    requires followed <= MAX_SYMLINKS
    decreases MAX_SYMLINKS - followed, |pending|
  {
    if pending == [] then (Ok(resolved), fs)
    else match TakeTurn(fs, pending, resolved, followed, mkdir)
      case Done(result, tree) => (result, tree)
      case Next(tree, pending', resolved', followed') => Walk(tree, pending', resolved', followed', mkdir)
  }

  function ResolveSpec(fs: Tree, relative: string, mkdir: Path -> Creation): (Result<Path, Error>, Tree) {
    if IsAbsolute(relative) then (Err(Absolute), fs)
    else if ".." in Components(relative) then (Err(NotNormalized), fs)
    else if Components(relative) == [] then (Err(Empty), fs)
    else Walk(fs, Components(relative), [], 0, mkdir)
  }

  class ImageRoot {
    var tree: Tree

    constructor (tree: Tree)
      ensures this.tree == tree
    {
      this.tree := tree;
    }

    /** Applies link components one by one. */
    method Apply(start: Path, parts: Path) returns (target: Option<Path>)
      ensures target == Normalize(start, parts)
    {
      var t := start;
      var i := 0;
      assert parts[0..] == parts;
      while i < |parts|
        invariant 0 <= i <= |parts|
        invariant Normalize(t, parts[i..]) == Normalize(start, parts)
      {
        assert parts[i..][0] == parts[i] && parts[i..][1..] == parts[i + 1..];
        if parts[i] == ".." {
          if t == [] {
            return None;
          }
          t := Front(t);
        } else {
          t := t + [parts[i]];
        }
        i := i + 1;
      }
      target := Some(t);
    }

    method FollowLink(target: Option<string>, rest: Path, resolved: Path, followed: nat) returns (turn: Turn)
      ensures turn == FollowTurn(tree, target, rest, resolved, followed)
    {
      if followed + 1 > MAX_SYMLINKS {
        return Done(Err(TooManySymlinks), tree);
      }
      if target.None? {
        return Done(Err(Io), tree);
      }
      var normalized := Apply(LinkStart(resolved, target.value), Components(target.value));
      if normalized.None? {
        return Done(Err(Escapes), tree);
      }
      turn := Next(tree, normalized.value + rest, [], followed + 1);
    }

    method CreateParent(at: Path, mkdir: Path -> Creation) returns (ok: bool)
      modifies this
      ensures ok <==> mkdir(at) == Made
      ensures tree == if mkdir(at) == Refused then old(tree) else old(tree)[at := Directory]
    {
      var answer := mkdir(at);
      if answer == Refused {
        return false;
      }
      tree := tree[at := Directory];
      ok := answer == Made;
    }

    /** The resolver's loop. */
    method Resolve(relative: string, mkdir: Path -> Creation) returns (r: Result<Path, Error>)
      modifies this
      ensures (r, tree) == ResolveSpec(old(tree), relative, mkdir)
    {
      if IsAbsolute(relative) {
        return Err(Absolute);
      }
      var pending := Components(relative);
      if ".." in pending {
        return Err(NotNormalized);
      }
      if pending == [] {
        return Err(Empty);
      }
      var resolved: Path, followed := [], 0;
      while pending != []
        invariant 0 <= followed <= MAX_SYMLINKS
        invariant Walk(tree, pending, resolved, followed, mkdir) == ResolveSpec(old(tree), relative, mkdir)
        decreases MAX_SYMLINKS - followed, |pending|
      {
        var at, rest := resolved + [pending[0]], pending[1..];
        if at !in tree {
          if rest != [] {
            var ok := CreateParent(at, mkdir);
            if !ok {
              return Err(Io);
            }
          }
          pending, resolved := rest, at;
        } else if tree[at].Symlink? {
          var turn := FollowLink(tree[at].target, rest, resolved, followed);
          if turn.Done? {
            return turn.result;
          }
          pending, resolved, followed := turn.pending, turn.resolved, turn.followed;
        } else if tree[at].Unreadable? {
          return Err(Io);
        } else {
          if rest != [] && tree[at] != Directory {
            return Err(NonDirectory);
          }
          pending, resolved := rest, at;
        }
      }
      r := Ok(resolved);
    }
  }

  // ---------------------------------------------------------------------------------------
  // What a successful walk has established

  ghost predicate IsDir(fs: Tree, p: Path) {
    p in fs && fs[p] == Directory
  }

  ghost predicate Directories(fs: Tree, p: Path) {
    forall k :: 1 <= k <= |p| ==> IsDir(fs, p[..k])
  }

  /** Every proper prefix is a real directory and the end is not a link. */
  ghost predicate Settled(fs: Tree, p: Path) {
    && (forall k :: 1 <= k < |p| ==> IsDir(fs, p[..k]))
    && (p in fs ==> !fs[p].Symlink?)
  }

  /** `fs'` is `fs` with some directories added. */
  ghost predicate GrownBy(fs: Tree, fs': Tree) {
    && (forall p <- fs :: p in fs' && fs'[p] == fs[p])
    && (forall p <- fs' :: p !in fs ==> fs'[p] == Directory)
  }

  ghost predicate Sound(fs: Tree, pending: Path, resolved: Path) {
    && Names(pending) && Names(resolved)
    && (if pending == [] then Settled(fs, resolved) else Directories(fs, resolved))
    && [] !in fs
  }

  lemma TurnIsSound(fs: Tree, pending: Path, resolved: Path, followed: nat, mkdir: Path -> Creation)
    requires pending != [] && Sound(fs, pending, resolved)
    ensures var turn := TakeTurn(fs, pending, resolved, followed, mkdir);
            GrownBy(fs, turn.tree) && (turn.Next? ==> Sound(turn.tree, turn.pending, turn.resolved))
  {
    var at, rest := resolved + [pending[0]], pending[1..];
    assert forall k :: 1 <= k <= |resolved| ==> at[..k] == resolved[..k];
    assert at[..|at|] == at;
    if at in fs && fs[at].Symlink? && fs[at].target.Some? {
      var text := fs[at].target.value;
      NormalizeNames(LinkStart(resolved, text), Components(text));
    }
  }

  lemma {:induction false} WalkIsSound(fs: Tree, pending: Path, resolved: Path, followed: nat, mkdir: Path -> Creation)
    requires followed <= MAX_SYMLINKS && Sound(fs, pending, resolved)
    ensures var (r, fs') := Walk(fs, pending, resolved, followed, mkdir);
            && GrownBy(fs, fs')
            && (r.Ok? ==> Names(r.value) && Settled(fs', r.value))
    decreases MAX_SYMLINKS - followed, |pending|
  {
    if pending != [] {
      TurnIsSound(fs, pending, resolved, followed, mkdir);
      match TakeTurn(fs, pending, resolved, followed, mkdir)
      case Done(_, _) =>
      case Next(tree, pending', resolved', followed') => WalkIsSound(tree, pending', resolved', followed', mkdir);
    }
  }

  /** A resolved target lies at or beneath the image root, is spelled with entry names only, is
      reached through real directories, and is not itself a link; the tree has only gained
      directories. */
  lemma ResolvedTargetIsContained(fs: Tree, relative: string, mkdir: Path -> Creation)
    requires [] !in fs
    ensures var (r, fs') := ResolveSpec(fs, relative, mkdir);
            && GrownBy(fs, fs')
            && (r.Ok? ==> Names(r.value) && Settled(fs', r.value))
  {
    var parts := Components(relative);
    if !IsAbsolute(relative) && ".." !in parts && parts != [] {
      forall i | 0 <= i < |parts| ensures Name(parts[i]) { assert parts[i] in parts; }
      WalkIsSound(fs, parts, [], 0, mkdir);
    }
  }

  lemma WalkOn(fs: Tree, pending: Path, resolved: Path, followed: nat, mkdir: Path -> Creation, turn: Turn)
    requires followed <= MAX_SYMLINKS && pending != []
    requires turn.Next? && turn == TakeTurn(fs, pending, resolved, followed, mkdir)
    ensures turn.followed <= MAX_SYMLINKS
    ensures Walk(fs, pending, resolved, followed, mkdir) ==
            Walk(turn.tree, turn.pending, turn.resolved, turn.followed, mkdir)
  {
  }

  // ---------------------------------------------------------------------------------------
  // What a successful walk has created

  /** Whatever is not in the root lies in a directory. */
  ghost predicate Rooted(fs: Tree) {
    forall p <- fs :: |p| > 1 ==> IsDir(fs, Front(p))
  }

  ghost predicate NothingBelow(fs: Tree, at: Path) {
    forall q <- fs :: !(|q| > |at| && q[..|at|] == at)
  }

  /** Everything new is a parent of the target, made with its mode. */
  ghost predicate OnlyParents(fs: Tree, fs': Tree, target: Path, mkdir: Path -> Creation) {
    forall q <- fs' :: q in fs || (|q| < |target| && q == target[..|q|] && mkdir(q) == Made)
  }

  lemma {:induction false} AncestorsExist(fs: Tree, q: Path, k: nat)
    requires Rooted(fs) && q in fs && 1 <= k <= |q|
    ensures q[..k] in fs
    decreases |q|
  {
    if k == |q| {
      assert q[..k] == q;
    } else {
      AncestorsExist(fs, Front(q), k);
      assert Front(q)[..k] == q[..k];
    }
  }

  lemma NothingBelowNew(fs: Tree, at: Path)
    requires Rooted(fs) && at !in fs && at != []
    ensures NothingBelow(fs[at := Directory], at)
  {
    forall q | q in fs ensures !(|q| > |at| && q[..|at|] == at) {
      if |q| > |at| && q[..|at|] == at {
        AncestorsExist(fs, q, |at|);
      }
    }
  }

  lemma NothingBelowChild(fs: Tree, here: Path, c: string)
    requires NothingBelow(fs, here)
    ensures here + [c] !in fs && NothingBelow(fs[here + [c] := Directory], here + [c])
  {
    var at := here + [c];
    assert at[..|here|] == here;
    forall q | q in fs && |q| > |at| ensures q[..|at|] != at {
      assert q[..|at|][..|here|] == q[..|here|];
    }
  }

  lemma ParentsAdd(fs: Tree, at: Path, fs': Tree, target: Path, mkdir: Path -> Creation)
    requires OnlyParents(fs[at := Directory], fs', target, mkdir)
    requires |at| < |target| && at == target[..|at|] && mkdir(at) == Made
    ensures OnlyParents(fs, fs', target, mkdir)
  {
  }

  lemma LastIsMissing(fs: Tree, c: string, resolved: Path, followed: nat, mkdir: Path -> Creation)
    requires followed <= MAX_SYMLINKS && resolved + [c] !in fs
    ensures Walk(fs, [c], resolved, followed, mkdir) == (Ok(resolved + [c]), fs)
  {
    assert [c][1..] == [];
  }

  lemma NextIsMissing(fs: Tree, c: string, rest: Path, resolved: Path, followed: nat, mkdir: Path -> Creation)
    requires followed <= MAX_SYMLINKS && resolved + [c] !in fs && rest != []
    ensures var at, walk := resolved + [c], Walk(fs, [c] + rest, resolved, followed, mkdir);
            if mkdir(at) == Made then walk == Walk(fs[at := Directory], rest, at, followed, mkdir)
            else walk.0 == Err(Io)
  {
    assert ([c] + rest)[1..] == rest;
  }

  /** The tree with the parents of a missing path made. */
  ghost function Built(fs: Tree, here: Path, pending: Path): Tree
    decreases |pending|
  {
    if |pending| <= 1 then fs else Built(fs[here + [pending[0]] := Directory], here + [pending[0]], pending[1..])
  }

  /** Every directory on the way to the last component can be made. */
  ghost predicate CanMake(mkdir: Path -> Creation, here: Path, pending: Path)
    decreases |pending|
  {
    |pending| > 1 ==> mkdir(here + [pending[0]]) == Made && CanMake(mkdir, here + [pending[0]], pending[1..])
  }

  /** Below an empty directory the walk succeeds exactly if the parents can be made, makes them and
      goes straight to the end. */
  lemma {:induction false} StraightOn(fs: Tree, pending: Path, resolved: Path, followed: nat, mkdir: Path -> Creation)
    requires followed <= MAX_SYMLINKS && NothingBelow(fs, resolved)
    ensures var (r, fs') := Walk(fs, pending, resolved, followed, mkdir);
            && (r.Ok? <==> CanMake(mkdir, resolved, pending))
            && (r.Ok? ==> r.value == resolved + pending && fs' == Built(fs, resolved, pending))
    decreases |pending|
  {
    if pending == [] {
      assert resolved + pending == resolved;
    } else {
      var c, rest := pending[0], pending[1..];
      NothingBelowChild(fs, resolved, c);
      if rest == [] {
        assert pending == [c];
        LastIsMissing(fs, c, resolved, followed, mkdir);
      } else {
        var at := resolved + [c];
        assert pending == [c] + rest && at + rest == resolved + pending;
        NextIsMissing(fs, c, rest, resolved, followed, mkdir);
        if mkdir(at) == Made {
          StraightOn(fs[at := Directory], rest, at, followed, mkdir);
        }
      }
    }
  }

  lemma {:induction false} BuiltMakesParents(fs: Tree, here: Path, pending: Path, mkdir: Path -> Creation, target: Path)
    requires CanMake(mkdir, here, pending) && target == here + pending
    ensures OnlyParents(fs, Built(fs, here, pending), target, mkdir)
    decreases |pending|
  {
    if |pending| > 1 {
      var at, rest := here + [pending[0]], pending[1..];
      assert at + rest == target && target[..|at|] == at;
      BuiltMakesParents(fs[at := Directory], at, rest, mkdir, target);
      ParentsAdd(fs, at, Built(fs, here, pending), target, mkdir);
    }
  }

  /** The same from the first missing component of a well-formed tree. */
  lemma MissingTail(fs: Tree, pending: Path, resolved: Path, followed: nat, mkdir: Path -> Creation)
    requires followed <= MAX_SYMLINKS && Rooted(fs) && pending != [] && resolved + [pending[0]] !in fs
    ensures var (r, fs') := Walk(fs, pending, resolved, followed, mkdir);
            && (r.Ok? <==> CanMake(mkdir, resolved, pending))
            && (r.Ok? ==> r.value == resolved + pending && fs' == Built(fs, resolved, pending))
  {
    var c, rest := pending[0], pending[1..];
    if rest == [] {
      assert pending == [c];
      LastIsMissing(fs, c, resolved, followed, mkdir);
    } else {
      var at := resolved + [c];
      assert pending == [c] + rest && at + rest == resolved + pending;
      NextIsMissing(fs, c, rest, resolved, followed, mkdir);
      NothingBelowNew(fs, at);
      if mkdir(at) == Made {
        StraightOn(fs[at := Directory], rest, at, followed, mkdir);
      }
    }
  }

  /** The walk creates the missing parents of its target and nothing else. */
  lemma {:induction false} WalkMakesParents(fs: Tree, pending: Path, resolved: Path, followed: nat,
                                            mkdir: Path -> Creation)
    requires followed <= MAX_SYMLINKS && Rooted(fs) && Walk(fs, pending, resolved, followed, mkdir).0.Ok?
    ensures var (r, fs') := Walk(fs, pending, resolved, followed, mkdir); OnlyParents(fs, fs', r.value, mkdir)
    decreases MAX_SYMLINKS - followed, |pending|
  {
    if pending != [] {
      if resolved + [pending[0]] !in fs {
        MissingTail(fs, pending, resolved, followed, mkdir);
        BuiltMakesParents(fs, resolved, pending, mkdir, resolved + pending);
      } else {
        var turn := TakeTurn(fs, pending, resolved, followed, mkdir);
        WalkOn(fs, pending, resolved, followed, mkdir, turn);
        WalkMakesParents(fs, turn.pending, turn.resolved, turn.followed, mkdir);
      }
    }
  }

  /** From the root: on a well-formed tree a resolution adds exactly the missing parents of its
      target. */
  lemma ResolutionMakesParents(fs: Tree, relative: string, mkdir: Path -> Creation)
    requires [] !in fs && Rooted(fs) && ResolveSpec(fs, relative, mkdir).0.Ok?
    ensures var (r, fs') := ResolveSpec(fs, relative, mkdir);
            && (forall q :: q in fs' <==> q in fs || (0 < |q| < |r.value| && q == r.value[..|q|]))
            && (forall q <- fs' :: q in fs || mkdir(q) == Made)
  {
    var parts := Components(relative);
    forall i | 0 <= i < |parts| ensures Name(parts[i]) { assert parts[i] in parts; }
    WalkIsSound(fs, parts, [], 0, mkdir);
    WalkMakesParents(fs, parts, [], 0, mkdir);
    RootIsNoEntry(fs, parts, [], 0, mkdir);
  }

  lemma {:induction false} RootIsNoEntry(fs: Tree, pending: Path, resolved: Path, followed: nat,
                                         mkdir: Path -> Creation)
    requires followed <= MAX_SYMLINKS && [] !in fs
    ensures [] !in Walk(fs, pending, resolved, followed, mkdir).1
    decreases MAX_SYMLINKS - followed, |pending|
  {
    if pending != [] {
      match TakeTurn(fs, pending, resolved, followed, mkdir)
      case Done(_, _) =>
      case Next(tree, pending', resolved', followed') => RootIsNoEntry(tree, pending', resolved', followed', mkdir);
    }
  }
}
