/**
  The boot-asset synchroniser (crates/cluster-netboot/src/asset_sync.rs): a
  recursive merge of the source tree into the local cache, driven by file
  lengths and modification times.
 */
module AssetSync {
  import opened Common

  type Bytes = seq<byte>

  /** A file tree; links and special files are `Other` and are never copied. */
  datatype Tree = File(content: Bytes, mtime: int) | Dir(entries: map<string, Tree>) | Other

  /** The entry of that name, if this is a directory that has it. */
  function At(t: Option<Tree>, name: string): Option<Tree> {
    if t.Some? && t.value.Dir? && name in t.value.entries then Some(t.value.entries[name]) else None
  }

  /** The names a pass visits. */
  function Visited(src: Tree): set<string> {
    if src.Dir? then set n | n in src.entries && !src.entries[n].Other? else {}
  }

  function Present(dst: Option<Tree>): set<string> {
    if dst.Some? && dst.value.Dir? then dst.value.entries.Keys else {}
  }

  predicate ShouldCopy(src: Tree, dst: Option<Tree>)
    requires src.File?
  {
    || dst.None? || !dst.value.File?
    || |src.content| != |dst.value.content|
    || src.mtime > dst.value.mtime
  }

  /** Something other than a directory stands where the source has a directory. */
  predicate Blocked(dst: Option<Tree>) {
    dst.Some? && !dst.value.Dir?
  }

  /**
    Nothing in the cache stands where the source has something of another kind;
    a directory with nothing to copy tolerates a file in its place.
   */
  ghost predicate SameKinds(src: Tree, dst: Option<Tree>) {
    match src
    case File(_, _) => dst.Some? ==> dst.value.File?
    case Other => true
    case Dir(es) =>
      && (Blocked(dst) ==> Visited(src) == {})
      && forall n | n in es :: n in Visited(src) ==> SameKinds(es[n], At(dst, n))
  }

  /** The cache after a pass that copies at time `now`. */
  function Synced(src: Tree, dst: Option<Tree>, now: int): Tree
    requires !src.Other?
    decreases src
  {
    match src
    case File(content, _) => if ShouldCopy(src, dst) then File(content, now) else dst.value
    case Dir(es) =>
      if Blocked(dst) && Visited(src) == {} then dst.value
      else Dir(map n | n in Visited(src) + Present(dst) ::
                 if n in Visited(src) then Synced(es[n], At(dst, n), now) else dst.value.entries[n])
  }

  // ------------------------------------------------------------ properties

  /** Every source file is in the cache with the same content. */
  ghost predicate Agrees(src: Tree, dst: Option<Tree>) {
    match src
    case File(content, _) => dst.Some? && dst.value.File? && dst.value.content == content
    case Other => true
    case Dir(es) =>
      && dst.Some? && (Blocked(dst) ==> Visited(src) == {})
      && forall n | n in es :: n in Visited(src) ==> Agrees(es[n], At(dst, n))
  }

  /** Wherever contents differ, length or time gives it away. */
  ghost predicate Detectable(src: Tree, dst: Option<Tree>) {
    match src
    case File(content, _) => ShouldCopy(src, dst) || dst.value.content == content
    case Other => true
    case Dir(es) => forall n | n in es :: n in Visited(src) ==> Detectable(es[n], At(dst, n))
  }

  /** A pass would copy no file and create no directory. */
  ghost predicate UpToDate(src: Tree, dst: Option<Tree>) {
    match src
    case File(_, _) => !ShouldCopy(src, dst)
    case Other => true
    case Dir(es) =>
      && dst.Some? && (Blocked(dst) ==> Visited(src) == {})
      && forall n | n in es :: n in Visited(src) ==> UpToDate(es[n], At(dst, n))
  }

  /** A pass would copy no file. */
  ghost predicate NoCopies(src: Tree, dst: Option<Tree>) {
    match src
    case File(_, _) => !ShouldCopy(src, dst)
    case Other => true
    case Dir(es) => forall n | n in es :: n in Visited(src) ==> NoCopies(es[n], At(dst, n))
  }

  /** Everything in the cache that no source entry names is unchanged. */
  ghost predicate KeepsCacheOnly(src: Tree, before: Option<Tree>, after: Tree) {
    src.Dir? && before.Some? && before.value.Dir? ==>
      && after.Dir?
      && forall n | n in before.value.entries ::
           && n in after.entries
           && if n in Visited(src) then KeepsCacheOnly(src.entries[n], Some(before.value.entries[n]), after.entries[n])
              else after.entries[n] == before.value.entries[n]
  }

  ghost predicate StampedBy(t: Tree, latest: int) {
    match t
    case File(_, mtime) => mtime <= latest
    case Other => true
    case Dir(es) => forall n | n in es :: StampedBy(es[n], latest)
  }

  /** A pass makes the cache agree with the source exactly when every difference is detectable. */
  lemma {:induction false} PassAgreesIffDetectable(src: Tree, dst: Option<Tree>, now: int)
    requires !src.Other?
    ensures Agrees(src, Some(Synced(src, dst, now))) <==> Detectable(src, dst)
    decreases src
  {
    if src.Dir? {
      var out := Some(Synced(src, dst, now));
      forall n | n in src.entries && n in Visited(src)
        ensures Agrees(src.entries[n], At(out, n)) <==> Detectable(src.entries[n], At(dst, n))
      {
        PassAgreesIffDetectable(src.entries[n], At(dst, n), now);
        assert At(out, n) == Some(Synced(src.entries[n], At(dst, n), now));
      }
    }
  }

  /** Every file that a pass at time `now` copies carries a stamp no later than that. */
  ghost predicate CopiesStampedBy(src: Tree, dst: Option<Tree>, now: int) {
    match src
    case File(_, mtime) => ShouldCopy(src, dst) ==> mtime <= now
    case Other => true
    case Dir(es) => forall n | n in es :: n in Visited(src) ==> CopiesStampedBy(es[n], At(dst, n), now)
  }

  /** A pass leaves nothing for the next one exactly when its clock is not behind any file it copies. */
  lemma {:induction false} PassLeavesUpToDateIff(src: Tree, dst: Option<Tree>, now: int)
    requires !src.Other?
    ensures UpToDate(src, Some(Synced(src, dst, now))) <==> CopiesStampedBy(src, dst, now)
    decreases src
  {
    if src.Dir? {
      var out := Some(Synced(src, dst, now));
      forall n | n in src.entries && n in Visited(src)
        ensures UpToDate(src.entries[n], At(out, n)) <==> CopiesStampedBy(src.entries[n], At(dst, n), now)
      {
        PassLeavesUpToDateIff(src.entries[n], At(dst, n), now);
        assert At(out, n) == Some(Synced(src.entries[n], At(dst, n), now));
      }
    }
  }

  /** A pass over an up-to-date cache changes nothing at all. */
  lemma {:induction false} UpToDateIsFixed(src: Tree, dst: Tree, now: int)
    requires !src.Other? && UpToDate(src, Some(dst))
    ensures Synced(src, Some(dst), now) == dst
    decreases src
  {
    if src.Dir? && dst.Dir? {
      forall n | n in Visited(src)
        ensures n in dst.entries && Synced(src.entries[n], At(Some(dst), n), now) == dst.entries[n]
      {
        assert UpToDate(src.entries[n], At(Some(dst), n));
        assert At(Some(dst), n).Some?;
        UpToDateIsFixed(src.entries[n], dst.entries[n], now);
      }
      assert Synced(src, Some(dst), now).entries == dst.entries;
    }
  }

  lemma {:induction false} PassKeepsCacheOnly(src: Tree, dst: Option<Tree>, now: int)
    requires !src.Other?
    ensures KeepsCacheOnly(src, dst, Synced(src, dst, now))
    decreases src
  {
    if src.Dir? && dst.Some? && dst.value.Dir? {
      forall n | n in dst.value.entries && n in Visited(src)
        ensures KeepsCacheOnly(src.entries[n], Some(dst.value.entries[n]), Synced(src, dst, now).entries[n])
      {
        PassKeepsCacheOnly(src.entries[n], At(dst, n), now);
      }
    }
  }

  // ------------------------------------------------------- the pass itself

  /** The entries of a directory after visiting all names but `remaining`. */
  ghost predicate PartlyMerged(src: Tree, dst: Option<Tree>, now: int, entries: map<string, Tree>,
      remaining: set<string>) {
    && entries.Keys == Present(dst) + (Visited(src) - remaining)
    && (forall n | n in entries ::
          entries[n] == if n in Visited(src) - remaining then Synced(src.entries[n], At(dst, n), now)
              else dst.value.entries[n])
  }

  lemma MergedAll(src: Tree, dst: Option<Tree>, now: int, entries: map<string, Tree>)
    requires src.Dir? && !Blocked(dst) && PartlyMerged(src, dst, now, entries, {})
    ensures Dir(entries) == Synced(src, dst, now)
  {
    assert entries == Synced(src, dst, now).entries;
  }

  /**
    What a pass can leave behind when it ends early, by an error or a crash:
    some entries untouched, some synchronised, and one file possibly written in
    part.
   */
  ghost predicate CutOff(src: Tree, dst: Option<Tree>, now: int, out: Option<Tree>) {
    || out == dst
    || (!src.Other? && SameKinds(src, dst) && out == Some(Synced(src, dst, now)))
    || (src.File? && TornCopy(src, dst, out))
    || (src.Dir? && !Blocked(dst) && MergedNames(src, dst, out)
        && forall n | n in src.entries :: n in Visited(src) ==> CutOff(src.entries[n], At(dst, n), now, At(out, n)))
  }

  /** A proper prefix of the file, stamped at any time. */
  ghost predicate TornCopy(src: Tree, dst: Option<Tree>, out: Option<Tree>)
    requires src.File?
  {
    && ShouldCopy(src, dst) && (dst.Some? ==> dst.value.File?)
    && out.Some? && out.value.File? && out.value.content < src.content
  }

  /** A directory that differs from the old one only under names the source has. */
  ghost predicate MergedNames(src: Tree, dst: Option<Tree>, out: Option<Tree>) {
    && out.Some? && out.value.Dir?
    && Present(out) <= Present(dst) + Visited(src)
    && forall n | n in Present(dst) && n !in Visited(src) :: At(out, n) == At(dst, n)
  }

  lemma {:induction false} CutOffKeepsCacheOnly(src: Tree, dst: Option<Tree>, now: int, out: Option<Tree>)
    requires CutOff(src, dst, now, out) && dst.Some?
    ensures out.Some? && KeepsCacheOnly(src, dst, out.value)
    decreases src
  {
    if out == dst {
      Unchanged(src, dst.value);
    } else if !src.Other? && SameKinds(src, dst) && out == Some(Synced(src, dst, now)) {
      PassKeepsCacheOnly(src, dst, now);
    } else if src.Dir? {
      forall n | n in Present(dst)
        ensures n in out.value.entries
        ensures if n in Visited(src) then KeepsCacheOnly(src.entries[n], At(dst, n), out.value.entries[n])
                else At(out, n) == At(dst, n)
      {
        if n in Visited(src) {
          CutOffKeepsCacheOnly(src.entries[n], At(dst, n), now, At(out, n));
        }
      }
    }
  }

  /** However a pass ends, every difference it leaves is detectable if every one it found was. */
  lemma {:induction false} CutOffStaysDetectable(src: Tree, dst: Option<Tree>, now: int, out: Option<Tree>)
    requires CutOff(src, dst, now, out) && Detectable(src, dst)
    ensures Detectable(src, out)
    decreases src
  {
    if out != dst && !src.Other? {
      if SameKinds(src, dst) && out == Some(Synced(src, dst, now)) {
        PassAgreesIffDetectable(src, dst, now);
        AgreementIsDetectable(src, out);
      } else if src.Dir? {
        forall n | n in src.entries && n in Visited(src) ensures Detectable(src.entries[n], At(out, n)) {
          CutOffStaysDetectable(src.entries[n], At(dst, n), now, At(out, n));
        }
      }
    }
  }

  lemma {:induction false} AgreementIsDetectable(src: Tree, dst: Option<Tree>)
    requires Agrees(src, dst)
    ensures Detectable(src, dst)
    decreases src
  {
    if src.Dir? {
      forall n | n in src.entries && n in Visited(src) ensures Detectable(src.entries[n], At(dst, n)) {
        AgreementIsDetectable(src.entries[n], At(dst, n));
      }
    }
  }

  /** A merge stopped at entry n by an error has only got so far. */
  lemma StoppedIsCutOff(
    src: Tree, dst: Option<Tree>, now: int, entries: map<string, Tree>, remaining: set<string>, n: string,
        part: Option<Tree>)
    requires src.Dir? && !Blocked(dst) && PartlyMerged(src, dst, now, entries, remaining)
    requires forall m | m in Visited(src) - remaining :: SameKinds(src.entries[m], At(dst, m))
    requires n in remaining && n in Visited(src) && part.Some? && CutOff(src.entries[n], At(dst, n), now, part)
    ensures CutOff(src, dst, now, Some(Dir(entries[n := part.value])))
  {
    var out := Some(Dir(entries[n := part.value]));
    forall m | m in src.entries && m in Visited(src) ensures CutOff(src.entries[m], At(dst, m), now, At(out, m)) {
      if m != n && m !in remaining {
        assert At(out, m) == Some(Synced(src.entries[m], At(dst, m), now));
      }
    }
    assert MergedNames(src, dst, out);
  }

  lemma {:induction false} Unchanged(src: Tree, t: Tree)
    ensures KeepsCacheOnly(src, Some(t), t)
    decreases src
  {
    if src.Dir? && t.Dir? {
      forall n | n in t.entries && n in Visited(src)
          ensures KeepsCacheOnly(src.entries[n], Some(t.entries[n]), t.entries[n]) {
        Unchanged(src.entries[n], t.entries[n]);
      }
    }
  }

  /**
    Merges one source entry into the cache and counts the files copied.  A
    cache entry of another kind stops the pass with an error and the cache
    partly merged.
   */
  method CopyEntry(src: Tree, dst: Option<Tree>, now: int) returns (ok: bool, out: Tree, copied: nat)
    requires !src.Other?
    ensures ok <==> SameKinds(src, dst)
    ensures ok ==> out == Synced(src, dst, now) && (copied == 0 <==> NoCopies(src, dst))
    ensures !ok ==> dst.Some? && CutOff(src, dst, now, Some(out))
    decreases src, 1
  {
    if src.File? {
      if dst.Some? && !dst.value.File? {
        return false, dst.value, 0;
      }
      if ShouldCopy(src, dst) {
        return true, File(src.content, now), 1;
      }
      return true, dst.value, 0;
    } else if dst.Some? && !dst.value.Dir? {
      return Visited(src) == {}, dst.value, 0;
    } else {
      ok, out, copied := CopyRecursive(src, dst, now);
    }
  }

  /** Merges a directory, visiting its entries in any order. */
  method CopyRecursive(src: Tree, dst: Option<Tree>, now: int) returns (ok: bool, out: Tree, copied: nat)
    requires src.Dir? && !Blocked(dst)
    ensures ok <==> SameKinds(src, dst)
    ensures ok ==> out == Synced(src, dst, now) && (copied == 0 <==> NoCopies(src, dst))
    ensures !ok ==> dst.Some? && CutOff(src, dst, now, Some(out))
    decreases src, 0
  {
    var entries: map<string, Tree> := if dst.Some? then dst.value.entries else map[];
    var remaining := Visited(src);
    copied := 0;
    while remaining != {}
      invariant remaining <= Visited(src)
      invariant PartlyMerged(src, dst, now, entries, remaining)
      invariant forall n | n in Visited(src) - remaining :: SameKinds(src.entries[n], At(dst, n))
      invariant copied == 0 <==> forall n | n in Visited(src) - remaining :: NoCopies(src.entries[n], At(dst, n))
      decreases remaining
    {
      var n :| n in remaining;
      var ok', out', copied' := CopyEntry(src.entries[n], At(dst, n), now);
      if !ok' {
        StoppedIsCutOff(src, dst, now, entries, remaining, n, Some(out'));
        return false, Dir(entries[n := out']), copied;
      }
      entries := entries[n := out'];
      copied := copied + copied';
      remaining := remaining - {n};
    }
    MergedAll(src, dst, now, entries);
    ok, out := true, Dir(entries);
  }

  /** Over a directory just created, a pass does what it does over an absent one. */
  lemma EmptyCacheIsAbsent(src: Tree, now: int)
    requires src.Dir?
    ensures var made := Some(Dir(map[]));
            && Synced(src, made, now) == Synced(src, None, now)
            && SameKinds(src, made) && SameKinds(src, None)
            && forall out :: CutOff(src, made, now, out) && out != made ==> CutOff(src, None, now, out)
  {
    var made: Option<Tree> := Some(Dir(map[]));
    assert forall n :: At(made, n) == At(None, n) == None;
    AbsentSameKinds(src);
    assert Present(made) == Present(None) == {};
  }

  lemma {:induction false} AbsentSameKinds(src: Tree)
    ensures SameKinds(src, None)
    decreases src
  {
    if src.Dir? {
      forall n | n in src.entries ensures SameKinds(src.entries[n], None) {
        AbsentSameKinds(src.entries[n]);
      }
    }
  }

  /** The local cache directory. */
  class Cache {
    var tree: Option<Tree>

    constructor (tree: Option<Tree>)
      ensures this.tree == tree
    {
      this.tree := tree;
    }

    /**
      One pass.  An absent source is skipped; a source that is no directory
      cannot be listed, and a cache path that is no directory cannot be created.
     */
    method SyncOnce(source: Option<Tree>, now: int) returns (ok: bool)
      modifies this
      ensures source.None? ==> ok && tree == old(tree)
      ensures source.Some? ==> (ok <==> source.value.Dir? && !Blocked(old(tree)) && SameKinds(source.value, old(tree)))
      ensures source.Some? && ok ==> tree == Some(Synced(source.value, old(tree), now))
      ensures source.Some? && ok ==> (SameFiles(source.value, tree) <==> DifferencesShow(source.value, old(tree)))
      ensures source.Some? && !ok && source.value.Dir? ==> CutOff(source.value, old(tree), now, tree)
      ensures source.Some? && !source.value.Dir? ==> tree == if old(tree).Some? then old(tree) else Some(Dir(map[]))
    {
      if source.None? {
        return true;
      }
      if Blocked(tree) {
        return false;
      }
      if tree.None? {
        tree := Some(Dir(map[]));
      }
      if !source.value.Dir? {
        return false;
      }
      var out, copied;
      EmptyCacheIsAbsent(source.value, now);
      PassBringsEveryFileIff(source.value, tree, now);
      ok, out, copied := CopyRecursive(source.value, tree, now);
      tree := Some(out);
    }
  }

  // ----------------------------------------------------------------- runs

  /** A source directory that may be unmounted, and the cache. */
  datatype World = World(source: Tree, mounted: bool, cache: Option<Tree>)

  datatype Action =
    | Edit(source: Tree)
    | SetMounted(mounted: bool)
    | Pass(now: int)                                 // a pass that succeeds
    | CutOffPass(now: int, left: Option<Tree>)       // a pass that fails or is killed

  /** Every file of the edited tree is the old one or is stamped after `latest`. */
  ghost predicate EditedAfter(edited: Tree, old_: Option<Tree>, latest: int) {
    match edited
    case File(_, mtime) => old_ == Some(edited) || mtime > latest
    case Other => true
    case Dir(es) => forall n | n in es :: EditedAfter(es[n], At(old_, n), latest)
  }

  /** The one assumption is on edits: a file that changes is stamped after everything in the cache. */
  ghost predicate Allowed(w: World, a: Action) {
    match a
    case Edit(s) =>
      && s.Dir?
      && (w.cache.Some? ==> exists latest :: StampedBy(w.cache.value, latest) && EditedAfter(s, Some(w.source), latest))
    case SetMounted(_) => true
    case Pass(_) => w.mounted ==> !Blocked(w.cache) && SameKinds(w.source, w.cache)
    case CutOffPass(now, left) => w.mounted && CutOff(w.source, w.cache, now, left)
  }

  function Apply(w: World, a: Action): World
    requires w.source.Dir?
  {
    match a
    case Edit(s) => w.(source := s)
    case SetMounted(m) => w.(mounted := m)
    case Pass(now) => if w.mounted then w.(cache := Some(Synced(w.source, w.cache, now))) else w
    case CutOffPass(_, left) => w.(cache := left)
  }

  ghost predicate Inv(w: World) {
    w.source.Dir? && Detectable(w.source, w.cache)
  }

  /** A run may start over any cache whose differences are detectable, in particular an absent one. */
  ghost predicate IsRun(worlds: seq<World>, actions: seq<Action>) {
    && |worlds| == |actions| + 1
    && Inv(worlds[0])
    && forall k | 0 <= k < |actions| ::
         worlds[k].source.Dir? && Allowed(worlds[k], actions[k]) && worlds[k + 1] == Apply(worlds[k], actions[k])
  }

  lemma {:induction false} EditStaysDetectable(edited: Tree, old_: Option<Tree>, cache: Tree, latest: int)
    requires old_.Some? ==> Detectable(old_.value, Some(cache))
    requires StampedBy(cache, latest) && EditedAfter(edited, old_, latest)
    ensures Detectable(edited, Some(cache))
    decreases edited
  {
    if edited.Dir? {
      forall n | n in edited.entries && n in Visited(edited) ensures Detectable(edited.entries[n], At(Some(cache), n)) {
        if At(Some(cache), n).Some? {
          EditStaysDetectable(edited.entries[n], At(old_, n), cache.entries[n], latest);
        } else {
          AbsentIsDetectable(edited.entries[n]);
        }
      }
    }
  }

  lemma {:induction false} AbsentIsDetectable(src: Tree)
    ensures Detectable(src, None)
    decreases src
  {
    if src.Dir? {
      forall n | n in src.entries ensures Detectable(src.entries[n], None) {
        AbsentIsDetectable(src.entries[n]);
      }
    }
  }

  lemma ActionKeepsInv(w: World, a: Action)
    requires Inv(w) && Allowed(w, a)
    ensures Inv(Apply(w, a))
  {
    match a
    case Edit(s) =>
      if w.cache.Some? {
        var latest :| StampedBy(w.cache.value, latest) && EditedAfter(s, Some(w.source), latest);
        EditStaysDetectable(s, Some(w.source), w.cache.value, latest);
      } else {
        AbsentIsDetectable(s);
      }
    case SetMounted(_) =>
    case Pass(now) =>
      if w.mounted {
        CutOffStaysDetectable(w.source, w.cache, now, Some(Synced(w.source, w.cache, now)));
      }
    case CutOffPass(now, left) => CutOffStaysDetectable(w.source, w.cache, now, left);
  }

  lemma {:induction false} RunKeepsInv(worlds: seq<World>, actions: seq<Action>, k: nat)
    requires IsRun(worlds, actions) && k < |worlds|
    ensures Inv(worlds[k])
  {
    if k > 0 {
      RunKeepsInv(worlds, actions, k - 1);
      ActionKeepsInv(worlds[k - 1], actions[k - 1]);
    }
  }

  /**
    In any run of edits, deletions, creations, unmounts, failed, killed and
    successful passes whose edits are stamped after the cache's files: every
    successful pass over a mounted source makes the cache agree with it, and is
    the last one with anything to do exactly when its clock is not behind a
    file it copied.
   */
  lemma EveryPassAgrees(worlds: seq<World>, actions: seq<Action>, k: nat, again: int)
    requires IsRun(worlds, actions) && k < |actions| && actions[k].Pass? && worlds[k].mounted
    ensures Agrees(worlds[k + 1].source, worlds[k + 1].cache)
    ensures UpToDate(worlds[k + 1].source, worlds[k + 1].cache) <==>
            CopiesStampedBy(worlds[k].source, worlds[k].cache, actions[k].now)
    ensures CopiesStampedBy(worlds[k].source, worlds[k].cache, actions[k].now) ==>
              Apply(worlds[k + 1], Pass(again)) == worlds[k + 1]
  {
    var w := worlds[k];
    RunKeepsInv(worlds, actions, k);
    PassAgreesIffDetectable(w.source, w.cache, actions[k].now);
    PassLeavesUpToDateIff(w.source, w.cache, actions[k].now);
    if CopiesStampedBy(w.source, w.cache, actions[k].now) {
      UpToDateIsFixed(w.source, worlds[k + 1].cache.value, again);
    }
  }

  /** However a pass ends, cache-only files stay as they are. */
  lemma EveryPassKeepsCacheOnly(worlds: seq<World>, actions: seq<Action>, k: nat)
    requires IsRun(worlds, actions) && k < |actions| && (actions[k].Pass? || actions[k].CutOffPass?)
    requires worlds[k].cache.Some?
    ensures worlds[k + 1].cache.Some? && KeepsCacheOnly(worlds[k].source, worlds[k].cache, worlds[k + 1].cache.value)
  {
    var w := worlds[k];
    if actions[k].CutOffPass? {
      CutOffKeepsCacheOnly(w.source, w.cache, actions[k].now, actions[k].left);
    } else if w.mounted {
      PassKeepsCacheOnly(w.source, w.cache, actions[k].now);
    } else {
      Unchanged(w.source, w.cache.value);
    }
  }

  /** An edit that keeps the length and is not stamped later than the cached copy is never picked up. */
  lemma BackdatedEditIsMissed(content: Bytes, edited: Bytes, mtime: int, cached: int, now: int)
    requires |content| == |edited| && content != edited && mtime <= cached
    ensures var src := Dir(map["a" := File(edited, mtime)]);
            var cache := Some(Dir(map["a" := File(content, cached)]));
            Synced(src, cache, now) == cache.value && !Agrees(src, Some(Synced(src, cache, now)))
  {
    var src := Dir(map["a" := File(edited, mtime)]);
    var cache := Dir(map["a" := File(content, cached)]);
    assert UpToDate(src, Some(cache));
    UpToDateIsFixed(src, cache, now);
    assert !Agrees(src.entries["a"], At(Some(cache), "a"));
  }

  // ------------------------------------------------------------ path by path

  /** What stands at a path below a tree. */
  function Lookup(t: Option<Tree>, path: seq<string>): Option<Tree>
    decreases |path|
  {
    if path == [] then t
    else if t.Some? && t.value.Dir? && path[0] in t.value.entries then Lookup(Some(t.value.entries[path[0]]), path[1..])
    else None
  }

  predicate FileAt(t: Option<Tree>, path: seq<string>) {
    Lookup(t, path).Some? && Lookup(t, path).value.File?
  }

  /** At every path where the source has a file, the cache has a file with the same content. */
  ghost predicate SameFiles(src: Tree, cache: Option<Tree>) {
    forall path | FileAt(Some(src), path) ::
      FileAt(cache, path) && Lookup(cache, path).value.content == Lookup(Some(src), path).value.content
  }

  /**
    At every path where the source has a file, the cache has none, one of
    another length, an older one or an equal one.
   */
  ghost predicate DifferencesShow(src: Tree, cache: Option<Tree>) {
    forall path | FileAt(Some(src), path) && FileAt(cache, path) ::
      var new_, old_ := Lookup(Some(src), path).value, Lookup(cache, path).value;
      |new_.content| != |old_.content| || new_.mtime > old_.mtime || new_.content == old_.content
  }

  /** What a pass does to one source file, found at any depth. */
  lemma {:induction false} SyncedAtPath(src: Tree, dst: Option<Tree>, now: int, path: seq<string>)
    requires !src.Other? && FileAt(Some(src), path)
    ensures Lookup(Some(Synced(src, dst, now)), path) ==
            Some(Synced(Lookup(Some(src), path).value, Lookup(dst, path), now))
  {
    if path != [] {
      var n := path[0];
      var child := src.entries[n];
      assert Lookup(Some(child), path[1..]) == Lookup(Some(src), path);
      assert !child.Other?;
      var out := Some(Synced(src, dst, now));
      assert n in Visited(src) && At(out, n) == Some(Synced(child, At(dst, n), now));
      LookupStep(dst, path);
      LookupStep(out, path);
      SyncedAtPath(child, At(dst, n), now, path[1..]);
    }
  }

  lemma LookupStep(t: Option<Tree>, path: seq<string>)
    requires path != []
    ensures Lookup(t, path) == Lookup(At(t, path[0]), path[1..])
  {
    NothingBelowNothing(path[1..]);
  }

  lemma NothingBelowNothing(path: seq<string>)
    ensures Lookup(None, path) == None
  {
  }

  /** Path by path: a pass brings over every file exactly when every difference shows. */
  lemma PassBringsEveryFileIff(src: Tree, dst: Option<Tree>, now: int)
    requires !src.Other?
    ensures SameFiles(src, Some(Synced(src, dst, now))) <==> DifferencesShow(src, dst)
  {
    var out := Some(Synced(src, dst, now));
    forall path | FileAt(Some(src), path)
      ensures Lookup(out, path) == Some(Synced(Lookup(Some(src), path).value, Lookup(dst, path), now))
    {
      SyncedAtPath(src, dst, now, path);
    }
  }

  lemma {:induction false} AgreementOnPath(src: Tree, dst: Option<Tree>, path: seq<string>)
    requires Agrees(src, dst) && FileAt(Some(src), path)
    ensures FileAt(dst, path) && Lookup(dst, path).value.content == Lookup(Some(src), path).value.content
  {
    if path != [] {
      var child := src.entries[path[0]];
      assert Lookup(Some(child), path[1..]) == Lookup(Some(src), path);
      assert !child.Other?;
      LookupStep(dst, path);
      AgreementOnPath(child, At(dst, path[0]), path[1..]);
    }
  }

  /** However a pass ends: where the source has nothing to copy, what the cache has stays. */
  lemma {:induction false} OtherPathsUntouched(src: Tree, dst: Option<Tree>, now: int, out: Option<Tree>,
      path: seq<string>)
    requires CutOff(src, dst, now, out) && Lookup(dst, path).Some?
    requires Lookup(Some(src), path).None? || Lookup(Some(src), path).value.Other?
    ensures Lookup(out, path) == Lookup(dst, path)
  {
    if out != dst && path != [] {
      var n := path[0];
      LookupStep(dst, path);
      LookupStep(out, path);
      LookupStep(Some(src), path);
      NothingBelowNothing(path[1..]);
      if src.Dir? && n in Visited(src) {
        OtherPathsUntouched(src.entries[n], At(dst, n), now, At(out, n), path[1..]);
      }
    }
  }

  /** However a pass ends: the cache has nothing that was not there before or in the source. */
  lemma {:induction false} NothingIsInvented(src: Tree, dst: Option<Tree>, now: int, out: Option<Tree>,
      path: seq<string>)
    requires CutOff(src, dst, now, out) && Lookup(out, path).Some?
    ensures Lookup(dst, path).Some? || Lookup(Some(src), path).Some?
  {
    if out != dst && path != [] {
      var n := path[0];
      LookupStep(dst, path);
      LookupStep(out, path);
      LookupStep(Some(src), path);
      NothingBelowNothing(path[1..]);
      if src.Dir? && n in Visited(src) {
        NothingIsInvented(src.entries[n], At(dst, n), now, At(out, n), path[1..]);
      }
    }
  }

  /** In every run, path by path: a successful pass over a mounted source leaves all its files in the cache. */
  lemma EveryPassBringsEveryFile(worlds: seq<World>, actions: seq<Action>, k: nat)
    requires IsRun(worlds, actions) && k < |actions| && actions[k].Pass? && worlds[k].mounted
    ensures SameFiles(worlds[k + 1].source, worlds[k + 1].cache)
  {
    EveryPassAgrees(worlds, actions, k, 0);
    var source, cache := worlds[k + 1].source, worlds[k + 1].cache;
    forall path | FileAt(Some(source), path)
      ensures FileAt(cache, path) && Lookup(cache, path).value.content == Lookup(Some(source), path).value.content
    {
      AgreementOnPath(source, cache, path);
    }
  }

  /** In every run, path by path: however a pass ends, it touches and adds only what the source has. */
  lemma EveryPassKeepsToTheSource(worlds: seq<World>, actions: seq<Action>, k: nat, path: seq<string>)
    requires IsRun(worlds, actions) && k < |actions| && (actions[k].Pass? || actions[k].CutOffPass?)
    ensures var found, old_, new_ :=
              Lookup(Some(worlds[k].source), path), Lookup(worlds[k].cache, path), Lookup(worlds[k + 1].cache, path);
            && (old_.Some? && (found.None? || found.value.Other?) ==> new_ == old_)
            && (new_.Some? ==> old_.Some? || found.Some?)
  {
    var w, a := worlds[k], actions[k];
    var out := worlds[k + 1].cache;
    var found, old_ := Lookup(Some(w.source), path), Lookup(w.cache, path);
    assert CutOff(w.source, w.cache, a.now, out);
    if old_.Some? && (found.None? || found.value.Other?) {
      OtherPathsUntouched(w.source, w.cache, a.now, out, path);
    }
    if Lookup(out, path).Some? {
      NothingIsInvented(w.source, w.cache, a.now, out, path);
    }
  }

  // --------------------------------------------------- when a pass succeeds

  /**
    A file, or else a directory, can be put at this path: only directories stand
    on the way, and no directory in a file's place.
   */
  predicate Fits(cache: Option<Tree>, path: seq<string>, isFile: bool)
    decreases |path|
  {
    if path == [] then isFile && cache.Some? ==> cache.value.File?
    else (cache.Some? ==> cache.value.Dir?) && Fits(At(cache, path[0]), path[1..], isFile)
  }

  ghost predicate EverythingFits(src: Tree, cache: Option<Tree>) {
    forall path: seq<string> | Lookup(Some(src), path).Some? ::
      Lookup(Some(src), path).value.Other? || Fits(cache, path, Lookup(Some(src), path).value.File?)
  }

  lemma {:induction false} SameKindsFit(src: Tree, dst: Option<Tree>, path: seq<string>)
    requires SameKinds(src, dst) && Lookup(Some(src), path).Some? && !Lookup(Some(src), path).value.Other?
    ensures Fits(dst, path, Lookup(Some(src), path).value.File?)
    decreases |path|
  {
    if path != [] {
      LookupStep(Some(src), path);
      assert path[0] in Visited(src);
      SameKindsFit(src.entries[path[0]], At(dst, path[0]), path[1..]);
    }
  }

  lemma {:induction false} ClashHasAPath(src: Tree, dst: Option<Tree>) returns (path: seq<string>)
    requires !src.Other? && !SameKinds(src, dst)
    ensures Lookup(Some(src), path).Some? && !Lookup(Some(src), path).value.Other?
    ensures !Fits(dst, path, Lookup(Some(src), path).value.File?)
    decreases src
  {
    if src.File? {
      path := [];
    } else if Blocked(dst) && Visited(src) != {} {
      var n :| n in Visited(src);
      path := [n];
      LookupStep(Some(src), path);
    } else {
      var n :| n in src.entries && n in Visited(src) && !SameKinds(src.entries[n], At(dst, n));
      var rest := ClashHasAPath(src.entries[n], At(dst, n));
      path := [n] + rest;
      assert path[1..] == rest;
      LookupStep(Some(src), path);
    }
  }

  /**
    A pass finds nothing of the wrong kind in its way exactly when every file
    and directory of the source fits at its path.
   */
  lemma SameKindsIffEverythingFits(src: Tree, dst: Option<Tree>)
    requires !src.Other?
    ensures SameKinds(src, dst) <==> EverythingFits(src, dst)
  {
    if SameKinds(src, dst) {
      forall path: seq<string> | Lookup(Some(src), path).Some?
        ensures Lookup(Some(src), path).value.Other? || Fits(dst, path, Lookup(Some(src), path).value.File?)
      {
        if !Lookup(Some(src), path).value.Other? {
          SameKindsFit(src, dst, path);
        }
      }
    } else {
      var path := ClashHasAPath(src, dst);
    }
  }
}
