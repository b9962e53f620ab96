/** What upserts and removals guarantee about the whole file. */
module FstabProperties {
  import opened Common
  import opened Text
  import opened MountTable
  import opened Fstab

  function LinesOf(content: Option<string>): seq<string> {
    if content.Some? then Lines(content.value) else []
  }

  ghost predicate Foreign(lines: seq<string>, e: Entry) {
    forall l | l in lines :: !e.Matches(l)
  }

  ghost predicate NoCr(lines: seq<string>) {
    forall l | l in lines :: !EndsWithCr(l)
  }

  /** The lines that are this entry's. */
  function Matching(lines: seq<string>, e: Entry): seq<string> {
    if lines == [] then []
    else (if e.Matches(lines[0]) then [lines[0]] else []) + Matching(lines[1..], e)
  }

  // --------------------------------------------------- shape of the rewrite

  lemma {:induction false} OthersAreForeign(lines: seq<string>, e: Entry)
    ensures Foreign(Others(lines, e), e)
    ensures forall l | l in Others(lines, e) :: l in lines
  {
    if lines != [] {
      OthersAreForeign(lines[1..], e);
    }
  }

  lemma {:induction false} ReplacedDropsMatches(lines: seq<string>, e: Entry)
    ensures Rewritten(lines, e, true) == Others(lines, e)
  {
    if lines != [] {
      ReplacedDropsMatches(lines[1..], e);
    }
  }

  /** The rewrite is the foreign lines in order with the new line somewhere among them. */
  lemma {:induction false} RewriteShape(lines: seq<string>, e: Entry) returns (pre: seq<string>, post: seq<string>)
    ensures Rewritten(lines, e, false) == pre + [e.Line()] + post
    ensures pre + post == Others(lines, e)
    ensures Foreign(pre, e) && Foreign(post, e)
  {
    if lines == [] {
      pre, post := [], [];
    } else if e.Matches(lines[0]) {
      ReplacedDropsMatches(lines[1..], e);
      OthersAreForeign(lines[1..], e);
      pre, post := [], Others(lines[1..], e);
    } else {
      pre, post := RewriteShape(lines[1..], e);
      pre := [lines[0]] + pre;
      assert Rewritten(lines, e, false) == [lines[0]] + Rewritten(lines[1..], e, false);
    }
  }

  lemma {:induction false} ForeignSplit(a: seq<string>, b: seq<string>, e: Entry)
    requires Foreign(a, e)
    ensures Others(a + b, e) == a + Others(b, e)
    ensures Matching(a + b, e) == Matching(b, e)
  {
    if a == [] {
      assert a + b == b;
    } else {
      assert (a + b)[1..] == a[1..] + b;
      ForeignSplit(a[1..], b, e);
    }
  }

  lemma {:induction false} ForeignRewrite(a: seq<string>, b: seq<string>, e: Entry, replaced: bool)
    requires Foreign(a, e)
    ensures Rewritten(a + b, e, replaced) == a + Rewritten(b, e, replaced)
  {
    if a == [] {
      assert a + b == b;
    } else {
      assert (a + b)[1..] == a[1..] + b;
      ForeignRewrite(a[1..], b, e, replaced);
    }
  }

  /** A file whose only line for the entry is the printed one. */
  lemma SettledShape(pre: seq<string>, post: seq<string>, e: Entry)
    requires e.Proper() && Foreign(pre, e) && Foreign(post, e)
    ensures var lines := pre + [e.Line()] + post;
            && Others(lines, e) == pre + post
            && Matching(lines, e) == [e.Line()]
            && Rewritten(lines, e, false) == lines
  {
    PrintedMatchesItself(e);
    var tail := [e.Line()] + post;
    assert pre + [e.Line()] + post == pre + tail;
    ForeignSplit(pre, tail, e);
    ForeignRewrite(pre, tail, e, false);
    assert tail[1..] == post && post + [] == post;
    ForeignSplit(post, [], e);
    ForeignRewrite(post, [], e, true);
  }

  // ------------------------------------------------- reading the result back

  lemma UpsertedLines(content: Option<string>, e: Entry)
    requires e.Proper()
    ensures Lines(Upserted(content, e)) == StripAll(Rewritten(LinesOf(content), e, false))
  {
    var pre, post := RewriteShape(LinesOf(content), e);
    if content.Some? {
      LinesOneLiners(content.value);
    }
    OthersAreForeign(LinesOf(content), e);
    PrintedOneLine(e);
    var rewritten := Rewritten(LinesOf(content), e, false);
    forall l | l in rewritten ensures '\n' !in l {
      if l != e.Line() {
        assert l in pre + post;
      }
    }
    LinesOfUnlines(rewritten);
  }

  lemma CleanLinesReadBack(content: Option<string>, e: Entry)
    requires e.Proper() && NoCr(Others(LinesOf(content), e))
    ensures Lines(Upserted(content, e)) == Rewritten(LinesOf(content), e, false)
  {
    UpsertedLines(content, e);
    var pre, post := RewriteShape(LinesOf(content), e);
    PrintedEnds(e);
    var rewritten := Rewritten(LinesOf(content), e, false);
    forall l | l in rewritten ensures !EndsWithCr(l) {
      if l != e.Line() {
        assert l in pre + post;
      }
    }
    StripAllClean(rewritten);
  }

  /** After an upsert the entry has exactly its printed line, and every other line stands verbatim and in order. */
  lemma UpsertReplacesExactlyTheEntry(content: Option<string>, e: Entry)
    requires e.Proper() && NoCr(Others(LinesOf(content), e))
    ensures var out := Lines(Upserted(content, e));
            Matching(out, e) == [e.Line()] && Others(out, e) == Others(LinesOf(content), e)
  {
    CleanLinesReadBack(content, e);
    var pre, post := RewriteShape(LinesOf(content), e);
    SettledShape(pre, post, e);
  }

  // ------------------------------------------------------------ idempotence

  lemma StripKeepsForeign(lines: seq<string>, e: Entry)
    requires Foreign(lines, e)
    ensures Foreign(StripAll(lines), e)
  {
    forall l | l in StripAll(lines) ensures !e.Matches(l) {
      var i :| 0 <= i < |lines| && l == StripCr(lines[i]);
      ColumnsIgnoreCr(lines[i]);
      assert !e.Matches(lines[i]);
    }
  }

  lemma {:induction false} StripShortens(lines: seq<string>)
    requires lines != []
    ensures |Unlines(StripAll(lines))| <= |Unlines(lines)|
    ensures !NoCr(lines) ==> |Unlines(StripAll(lines))| < |Unlines(lines)|
  {
    UnlinesCons(lines);
    UnlinesCons(StripAll(lines));
    if |lines| > 1 {
      StripAllCons(lines);
      StripShortens(lines[1..]);
      assert NoCr(lines) <==> !EndsWithCr(lines[0]) && NoCr(lines[1..]);
    }
  }

  lemma SecondUpsert(content: Option<string>, e: Entry)
    requires e.Proper()
    ensures Upserted(Some(Upserted(content, e)), e) == Unlines(StripAll(Rewritten(LinesOf(content), e, false)))
  {
    var pre, post := RewriteShape(LinesOf(content), e);
    UpsertedLines(content, e);
    StripKeepsForeign(pre, e);
    StripKeepsForeign(post, e);
    StripAroundEntry(pre, post, e);
    SettledShape(StripAll(pre), StripAll(post), e);
  }

  lemma StripAroundEntry(pre: seq<string>, post: seq<string>, e: Entry)
    ensures StripAll(pre + [e.Line()] + post) == StripAll(pre) + [e.Line()] + StripAll(post)
  {
    PrintedEnds(e);
  }

  /** Upserting twice writes the same bytes exactly when no line it keeps ends in a carriage return. */
  lemma UpsertIdempotentIffNoCr(content: Option<string>, e: Entry)
    requires e.Proper()
    ensures Upserted(Some(Upserted(content, e)), e) == Upserted(content, e) <==> NoCr(Others(LinesOf(content), e))
  {
    var pre, post := RewriteShape(LinesOf(content), e);
    var once := Rewritten(LinesOf(content), e, false);
    UpsertedLines(content, e);
    SecondUpsert(content, e);
    CrOnlyInForeign(pre, post, e);
    if NoCr(once) {
      StripAllClean(once);
    } else {
      StripShortens(once);
    }
  }

  lemma OneColumnLine()
    ensures Lines("a\r") == ["a\r"] && Columns("a\r") == ["a"]
  {
    var line := "a\r";
    assert Find(line, '\n') == |line|;
    assert line[..1] == "a" && IsWhitespace('\r') && !IsWhitespace('a');
    assert TrimEnd("a") == "a";
    TrimTight("a");
    FieldsSingle("a");
  }

  /** A file whose one line ends in a carriage return is written differently by every second upsert. */
  lemma CrIsLostAgain(e: Entry)
    requires e.Proper()
    ensures Upserted(Some(Upserted(Some("a\r"), e)), e) != Upserted(Some("a\r"), e)
  {
    OneColumnLine();
    assert Others(["a\r"], e) == ["a\r"] + Others([], e);
    assert "a\r" in Others(["a\r"], e) && EndsWithCr("a\r");
    UpsertIdempotentIffNoCr(Some("a\r"), e);
  }

  lemma CrOnlyInForeign(pre: seq<string>, post: seq<string>, e: Entry)
    ensures NoCr(pre + [e.Line()] + post) <==> NoCr(pre + post)
  {
    PrintedEnds(e);
    forall l | l in pre + [e.Line()] + post && l != e.Line() ensures l in pre + post {
    }
    forall l | l in pre + post ensures l in pre + [e.Line()] + post {
    }
  }

  // -------------------------------------------------------------- uniqueness

  /** Two entries for the same mount point, or for the same file system UUID. */
  predicate Clash(a: string, b: string) {
    && |Columns(a)| >= 2 && |Columns(b)| >= 2
    && (Columns(a)[1] == Columns(b)[1] || (Columns(a)[0] == Columns(b)[0] && "UUID=" <= Columns(a)[0]))
  }

  ghost predicate ClashFree(lines: seq<string>) {
    lines == [] || ((forall l | l in lines[1..] :: !Clash(lines[0], l)) && ClashFree(lines[1..]))
  }

  lemma {:induction false} OthersStayClashFree(lines: seq<string>, e: Entry)
    requires ClashFree(lines)
    ensures ClashFree(Others(lines, e))
  {
    if lines != [] {
      OthersStayClashFree(lines[1..], e);
      OthersAreForeign(lines[1..], e);
      if !e.Matches(lines[0]) {
        assert Others(lines, e)[1..] == Others(lines[1..], e);
      }
    }
  }

  /** A line foreign to the entry does not clash with its printed line. */
  lemma ForeignDoesNotClash(l: string, e: Entry)
    requires e.Proper() && !e.Matches(l)
    ensures !Clash(l, e.Line()) && !Clash(e.Line(), l)
  {
    PrintedColumns(e);
  }

  lemma {:induction false} InsertStaysClashFree(pre: seq<string>, post: seq<string>, e: Entry)
    requires e.Proper() && Foreign(pre, e) && Foreign(post, e) && ClashFree(pre + post)
    ensures ClashFree(pre + [e.Line()] + post)
  {
    var lines := pre + [e.Line()] + post;
    if pre == [] {
      assert pre + post == post && lines[1..] == post;
      forall l | l in post ensures !Clash(e.Line(), l) {
        ForeignDoesNotClash(l, e);
      }
    } else {
      assert (pre + post)[1..] == pre[1..] + post;
      InsertStaysClashFree(pre[1..], post, e);
      assert lines[1..] == pre[1..] + [e.Line()] + post;
      forall l | l in lines[1..] ensures !Clash(pre[0], l) {
        if l == e.Line() {
          ForeignDoesNotClash(pre[0], e);
        } else {
          assert l in pre[1..] + post;
        }
      }
    }
  }

  /** An upsert never introduces a second entry for a mount point or UUID. */
  lemma UpsertKeepsEntriesUnique(content: Option<string>, e: Entry)
    requires e.Proper() && NoCr(Others(LinesOf(content), e)) && ClashFree(LinesOf(content))
    ensures ClashFree(Lines(Upserted(content, e)))
  {
    CleanLinesReadBack(content, e);
    var pre, post := RewriteShape(LinesOf(content), e);
    OthersStayClashFree(LinesOf(content), e);
    InsertStaysClashFree(pre, post, e);
  }

  // ----------------------------------------------------------- commutativity

  lemma {:induction false} OthersCount(lines: seq<string>, e: Entry, l: string)
    ensures multiset(Others(lines, e))[l] == if e.Matches(l) then 0 else multiset(lines)[l]
  {
    if lines != [] {
      OthersCount(lines[1..], e, l);
      assert lines == [lines[0]] + lines[1..];
    }
  }

  lemma RewriteCount(lines: seq<string>, e: Entry, l: string)
    ensures multiset(Rewritten(lines, e, false))[l] ==
            (if l == e.Line() then 1 else 0) + (if e.Matches(l) then 0 else multiset(lines)[l])
  {
    var pre, post := RewriteShape(lines, e);
    OthersCount(lines, e, l);
    assert multiset(pre + [e.Line()] + post) == multiset(pre + post) + multiset{e.Line()};
  }

  lemma PrintedIsForeign(a: Entry, b: Entry)
    requires a.Proper() && b.Proper() && a.uuid != b.uuid && a.mountPoint != b.mountPoint
    ensures !a.Matches(b.Line())
  {
    PrintedColumns(b);
    assert a.Device()[5..] == a.uuid && b.Device()[5..] == b.uuid;
  }

  lemma CommuteCount(lines: seq<string>, a: Entry, b: Entry, l: string)
    requires !a.Matches(b.Line()) && !b.Matches(a.Line())
    ensures multiset(Rewritten(Rewritten(lines, a, false), b, false))[l] ==
        multiset(Rewritten(Rewritten(lines, b, false), a, false))[l]
  {
    RewriteCount(lines, a, l);
    RewriteCount(Rewritten(lines, a, false), b, l);
    RewriteCount(lines, b, l);
    RewriteCount(Rewritten(lines, b, false), a, l);
  }

  lemma RewritesCommute(lines: seq<string>, a: Entry, b: Entry)
    requires !a.Matches(b.Line()) && !b.Matches(a.Line())
    ensures multiset(Rewritten(Rewritten(lines, a, false), b, false)) ==
        multiset(Rewritten(Rewritten(lines, b, false), a, false))
  {
    var ab, ba := Rewritten(Rewritten(lines, a, false), b, false), Rewritten(Rewritten(lines, b, false), a, false);
    forall l ensures multiset(ab)[l] == multiset(ba)[l] {
      CommuteCount(lines, a, b, l);
    }
  }

  /** Upserts for different UUIDs and mount points commute up to the order of lines. */
  lemma UpsertsCommute(content: Option<string>, a: Entry, b: Entry)
    requires a.Proper() && b.Proper() && a.uuid != b.uuid && a.mountPoint != b.mountPoint
    requires NoCr(LinesOf(content))
    ensures multiset(Lines(Upserted(Some(Upserted(content, a)), b))) ==
        multiset(Lines(Upserted(Some(Upserted(content, b)), a)))
  {
    var ab := TwiceReadsBack(content, a, b);
    var ba := TwiceReadsBack(content, b, a);
    PrintedIsForeign(a, b);
    PrintedIsForeign(b, a);
    RewritesCommute(LinesOf(content), a, b);
  }

  lemma TwiceReadsBack(content: Option<string>, a: Entry, b: Entry) returns (twice: seq<string>)
    requires a.Proper() && b.Proper() && NoCr(LinesOf(content))
    ensures twice == Rewritten(Rewritten(LinesOf(content), a, false), b, false)
    ensures Lines(Upserted(Some(Upserted(content, a)), b)) == twice
  {
    var once := Rewritten(LinesOf(content), a, false);
    twice := Rewritten(once, b, false);
    OthersAreForeign(LinesOf(content), a);
    CleanLinesReadBack(content, a);
    var pre, post := RewriteShape(LinesOf(content), a);
    CrOnlyInForeign(pre, post, a);
    OthersAreForeign(once, b);
    CleanLinesReadBack(Some(Upserted(content, a)), b);
  }

  // ------------------------------------------------------ printer and parser

  lemma {:induction false} EntriesIgnoreCr(lines: seq<string>)
    ensures Entries(StripAll(lines)) == Entries(lines)
  {
    if lines != [] {
      ColumnsIgnoreCr(lines[0]);
      assert StripAll(lines)[1..] == StripAll(lines[1..]);
      EntriesIgnoreCr(lines[1..]);
    }
  }

  lemma {:induction false} FindSkips(first: seq<MountEntry>, rest: seq<MountEntry>, target: string)
    requires forall m | m in first :: m.mountPoint != target
    ensures FindByMountPoint(first + rest, target) == FindByMountPoint(rest, target)
  {
    if first == [] {
      assert first + rest == rest;
    } else {
      assert (first + rest)[1..] == first[1..] + rest;
      FindSkips(first[1..], rest, target);
    }
  }

  lemma {:induction false} ForeignEntriesElsewhere(lines: seq<string>, e: Entry)
    requires Foreign(lines, e)
    ensures forall m | m in Entries(lines) :: m.mountPoint != e.mountPoint
  {
    if lines != [] {
      assert !e.Matches(lines[0]);
      ForeignEntriesElsewhere(lines[1..], e);
    }
  }

  ghost predicate AllWellFormed(lines: seq<string>) {
    forall i | 0 <= i < |lines| :: WellFormed(lines[i])
  }

  lemma StripKeepsWellFormed(lines: seq<string>)
    ensures AllWellFormed(StripAll(lines)) <==> AllWellFormed(lines)
  {
    forall i | 0 <= i < |lines| ensures WellFormed(StripAll(lines)[i]) <==> WellFormed(lines[i]) {
      ColumnsIgnoreCr(lines[i]);
    }
  }

  lemma InsertKeepsWellFormed(pre: seq<string>, line: string, post: seq<string>)
    requires WellFormed(line)
    ensures AllWellFormed(pre + [line] + post) <==> AllWellFormed(pre + post)
  {
    var all, rest := pre + [line] + post, pre + post;
    forall i | 0 <= i < |rest| && AllWellFormed(all) ensures WellFormed(rest[i]) {
      assert rest[i] == all[if i < |pre| then i else i + 1];
    }
    forall i | 0 <= i < |all| && AllWellFormed(rest) ensures WellFormed(all[i]) {
      if i != |pre| {
        assert all[i] == rest[if i < |pre| then i else i - 1];
      }
    }
  }

  lemma PrintedEntry(e: Entry)
    requires e.Proper()
    ensures WellFormed(e.Line())
    ensures EntriesOfLine(e.Line()) == [MountEntry(e.Device(), e.mountPoint, e.fsType, Split(e.options, ','))]
  {
    PrintedColumns(e);
  }

  lemma {:induction false} EntriesAround(pre: seq<string>, line: string, post: seq<string>)
    ensures Entries(pre + [line] + post) == Entries(pre) + (EntriesOfLine(line) + Entries(post))
  {
    var tail := [line] + post;
    assert pre + [line] + post == pre + tail && tail[1..] == post;
    EntriesConcat(pre, tail);
  }

  lemma FindHead(m: MountEntry, rest: seq<MountEntry>)
    ensures FindByMountPoint([m] + rest, m.mountPoint) == Some(m)
  {
  }

  /** Looking the mount point up among rewritten lines finds the printed entry. */
  lemma RewrittenLookup(lines: seq<string>, e: Entry)
    requires e.Proper()
    ensures FindByMountPoint(Entries(Rewritten(lines, e, false)), e.mountPoint) ==
            Some(MountEntry(e.Device(), e.mountPoint, e.fsType, Split(e.options, ',')))
  {
    var pre, post := RewriteShape(lines, e);
    PrintedEntry(e);
    ForeignEntriesElsewhere(pre, e);
    EntriesAround(pre, e.Line(), post);
    FindSkips(Entries(pre), EntriesOfLine(e.Line()) + Entries(post), e.mountPoint);
    FindHead(EntriesOfLine(e.Line())[0], Entries(post));
  }

  /**
    Parsing an upserted file succeeds exactly when its other entries are long
    enough, and then finds what was printed.
   */
  lemma UpsertThenParse(content: Option<string>, e: Entry, r: Result<seq<MountEntry>, BadLine>)
    requires e.Proper() && Parses(Lines(Upserted(content, e)), r)
    ensures r.Ok? <==> AllWellFormed(Others(LinesOf(content), e))
    ensures r.Ok? ==> FindByMountPoint(r.value, e.mountPoint) ==
                      Some(MountEntry(e.Device(), e.mountPoint, e.fsType, Split(e.options, ',')))
  {
    var rewritten := Rewritten(LinesOf(content), e, false);
    UpsertedLines(content, e);
    StripKeepsWellFormed(rewritten);
    var pre, post := RewriteShape(LinesOf(content), e);
    PrintedEntry(e);
    InsertKeepsWellFormed(pre, e.Line(), post);
    EntriesIgnoreCr(rewritten);
    RewrittenLookup(LinesOf(content), e);
  }

  // ----------------------------------------------------------------- removal

  lemma {:induction false} RemainingConcat(a: seq<string>, b: seq<string>, key: string)
    ensures Remaining(a + b, key) == Remaining(a, key) + Remaining(b, key)
  {
    if a == [] {
      assert a + b == b;
    } else {
      assert (a + b)[1..] == a[1..] + b;
      RemainingConcat(a[1..], b, key);
    }
  }

  lemma PrintedIsRemoved(e: Entry)
    requires e.Proper()
    ensures Remaining([e.Line()], e.mountPoint) == []
  {
    PrintedColumns(e);
  }

  /** Upserting an entry and then removing its mount point leaves the foreign lines that the removal does not name. */
  lemma UpsertThenRemove(content: Option<string>, e: Entry)
    requires e.Proper() && NoCr(Others(LinesOf(content), e))
    ensures Removed(Upserted(content, e), e.mountPoint) == Unlines(Remaining(Others(LinesOf(content), e), e.mountPoint))
  {
    CleanLinesReadBack(content, e);
    var pre, post := RewriteShape(LinesOf(content), e);
    PrintedIsRemoved(e);
    RemainingConcat(pre + [e.Line()], post, e.mountPoint);
    RemainingConcat(pre, [e.Line()], e.mountPoint);
    RemainingConcat(pre, post, e.mountPoint);
    assert Remaining(pre, e.mountPoint) + [] == Remaining(pre, e.mountPoint);
  }

  lemma {:induction false} RemainingShortens(lines: seq<string>, key: string)
    ensures |Unlines(Remaining(lines, key))| <= |Unlines(lines)|
    ensures (exists l | l in lines :: Removes(key, l)) ==> |Unlines(Remaining(lines, key))| < |Unlines(lines)|
    ensures (forall l | l in lines :: !Removes(key, l)) ==> Remaining(lines, key) == lines
  {
    if lines != [] {
      RemainingShortens(lines[1..], key);
      UnlinesCons(lines);
      if Removes(key, lines[0]) {
        RemovedLineIsNotEmpty(key, lines[0]);
      } else {
        var kept := Remaining(lines, key);
        UnlinesCons(kept);
        assert kept[1..] == Remaining(lines[1..], key);
      }
    }
  }

  lemma RemovedLineIsNotEmpty(key: string, line: string)
    requires Removes(key, line)
    ensures line != ""
  {
  }

  /**
    The removal restores exactly the foreign lines if and only if none of them
    has the mount point as its device, bare or as a UUID.
   */
  lemma RemoveUndoesUpsertIff(content: Option<string>, e: Entry)
    requires e.Proper() && NoCr(Others(LinesOf(content), e))
    ensures Removed(Upserted(content, e), e.mountPoint) == Unlines(Others(LinesOf(content), e)) <==>
            forall l | l in Others(LinesOf(content), e) ::
              |Columns(l)| >= 2 ==> Columns(l)[0] != e.mountPoint && Columns(l)[0] != "UUID=" + e.mountPoint
  {
    UpsertThenRemove(content, e);
    var others := Others(LinesOf(content), e);
    OthersAreForeign(LinesOf(content), e);
    RemainingShortens(others, e.mountPoint);
  }

  /** A bind mount of /m elsewhere. */
  const BIND_LINE := "/m" + "\t" + "/x"

  lemma BindLineColumns()
    ensures Lines(BIND_LINE) == [BIND_LINE] && Columns(BIND_LINE) == ["/m", "/x"]
  {
    assert Find(BIND_LINE, '\n') == |BIND_LINE|;
    TrimTight(BIND_LINE);
    FieldsSingle("/x");
    FieldsCons("/m", "/x");
  }

  /** A foreign line that has the mount point in its device column does not survive the removal. */
  lemma RemovalTakesForeignLine(line: string, e: Entry)
    requires e.Proper() && Lines(line) == [line] && !EndsWithCr(line)
    requires !e.Matches(line) && |Columns(line)| >= 2 && Columns(line)[0] == e.mountPoint
    ensures Others(LinesOf(Some(line)), e) == [line]
    ensures Removed(Upserted(Some(line), e), e.mountPoint) != Unlines([line])
  {
    assert Others([line], e) == [line] + Others([], e);
    RemoveUndoesUpsertIff(Some(line), e);
    assert line in Others(LinesOf(Some(line)), e);
  }

  lemma BindEntryIsProper(e: Entry)
    requires Solid(e.uuid) && e.mountPoint == "/m" && e.fsType == "ext4" && e.options == "ro"
    ensures e.Proper() && !e.Matches(BIND_LINE)
  {
    BindLineColumns();
    PrintableIsSolid("UUID=");
    PrintableIsSolid(e.mountPoint);
    PrintableIsSolid(e.fsType);
    PrintableIsSolid(e.options);
    assert e.Device() == "UUID=" + e.uuid;
    assert e.Device()[0] == 'U' && "/m"[0] == '/' && "/x"[1] == 'x';
  }

  /** Upserting and removing the mount point /m also removes the bind mount of /m elsewhere. */
  lemma RemovalTakesBindMount(uuid: string)
    requires Solid(uuid)
    ensures var e := Entry(uuid, "/m", "ext4", "ro");
            && Others(LinesOf(Some(BIND_LINE)), e) == [BIND_LINE]
            && Removed(Upserted(Some(BIND_LINE), e), "/m") != Unlines([BIND_LINE])
  {
    var e := Entry(uuid, "/m", "ext4", "ro");
    BindEntryIsProper(e);
    BindLineColumns();
    assert !EndsWithCr(BIND_LINE);
    RemovalTakesForeignLine(BIND_LINE, e);
  }

  /** Blank lines and comments are nobody's entry: neither an upsert nor a removal takes them, whatever they say. */
  lemma CommentsAreKept(lines: seq<string>, line: string, lead: string, text: string, e: Entry, key: string)
    requires line in lines && AllWhitespace(lead) && (line == lead + "#" + text || line == lead)
    ensures line in Others(lines, e) && line in Remaining(lines, key)
  {
    CommentsHaveNoColumns(lead, text);
    OthersCount(lines, e, line);
    assert multiset(lines)[line] > 0;
    KeptByRemoval(lines, line, key);
  }

  lemma {:induction false} KeptByRemoval(lines: seq<string>, line: string, key: string)
    requires line in lines && !Removes(key, line)
    ensures line in Remaining(lines, key)
  {
    if lines[0] != line {
      KeptByRemoval(lines[1..], line, key);
    }
  }

  /** The new line stands where the first line of the entry stood, or at the end if there was none. */
  lemma ReplacesInPlace(pre: seq<string>, line: string, post: seq<string>, e: Entry)
    requires Foreign(pre, e)
    ensures e.Matches(line) ==> Rewritten(pre + [line] + post, e, false) == pre + [e.Line()] + Others(post, e)
    ensures Rewritten(pre, e, false) == pre + [e.Line()]
  {
    ForeignRewrite(pre, [], e, false);
    assert pre + [] == pre;
    if e.Matches(line) {
      var tail := [line] + post;
      assert pre + [line] + post == pre + tail && tail[1..] == post;
      ForeignRewrite(pre, tail, e, false);
      ReplacedDropsMatches(post, e);
    }
  }
}
