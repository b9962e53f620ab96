/** The fstab editor (crates/cluster-ldm/src/fstab.rs). */
module Fstab {
  import opened Common
  import opened Text
  import opened MountTable

  datatype Entry = Entry(uuid: string, mountPoint: string, fsType: string, options: string) {

    function Device(): string {
      "UUID=" + uuid
    }

    function Line(): string {
      Device() + "\t" + (mountPoint + "\t" + (fsType + "\t" + (options + "\t" + FLAGS)))
    }

    /** Whether this line is an entry with the same UUID or mount point. */
    predicate Matches(line: string) {
      |Columns(line)| >= 2 && (Columns(line)[0] == Device() || Columns(line)[1] == mountPoint)
    }

    /** Arguments without white space that make a six-column line. */
    ghost predicate Proper() {
      Solid(Device()) && Solid(mountPoint) && Solid(fsType) && Solid(options)
    }
  }

  /** The lines that are not this entry's. */
  function Others(lines: seq<string>, e: Entry): seq<string> {
    if lines == [] then []
    else if e.Matches(lines[0]) then Others(lines[1..], e)
    else [lines[0]] + Others(lines[1..], e)
  }

  /** The first matching line becomes the new one, further matches go, and without a match the new line is added. */
  function Rewritten(lines: seq<string>, e: Entry, replaced: bool): seq<string> {
    if lines == [] then (if replaced then [] else [e.Line()])
    else if e.Matches(lines[0]) then
      (if replaced then Rewritten(lines[1..], e, true) else [e.Line()] + Rewritten(lines[1..], e, true))
    else [lines[0]] + Rewritten(lines[1..], e, replaced)
  }

  /** The file after an upsert. */
  function Upserted(content: Option<string>, e: Entry): string {
    Unlines(Rewritten(if content.Some? then Lines(content.value) else [], e, false))
  }

  predicate Removes(key: string, line: string) {
    |Columns(line)| >= 2 && (Columns(line)[0] == "UUID=" + key || Columns(line)[0] == key || Columns(line)[1] == key)
  }

  function Remaining(lines: seq<string>, key: string): seq<string> {
    if lines == [] then []
    else if Removes(key, lines[0]) then Remaining(lines[1..], key)
    else [lines[0]] + Remaining(lines[1..], key)
  }

  /** The file after a removal. */
  function Removed(content: string, key: string): string {
    Unlines(Remaining(Lines(content), key))
  }

  lemma RewriteStep(done: seq<string>, all: seq<string>, k: nat, e: Entry, replaced: bool)
    requires k < |all|
    ensures var matches := e.Matches(all[k]);
            var next := if !matches then done + [all[k]] else if replaced then done else done + [e.Line()];
            next + Rewritten(all[k + 1..], e, replaced || matches) == done + Rewritten(all[k..], e, replaced)
  {
    assert all[k..][0] == all[k] && all[k..][1..] == all[k + 1..];
  }

  method RewriteLines(all: seq<string>, e: Entry) returns (lines: seq<string>)
    ensures lines == Rewritten(all, e, false)
  {
    lines := [];
    var replaced := false;
    for k := 0 to |all|
      invariant lines + Rewritten(all[k..], e, replaced) == Rewritten(all, e, false)
    {
      RewriteStep(lines, all, k, e, replaced);
      if e.Matches(all[k]) {
        if !replaced {
          lines := lines + [e.Line()];
          replaced := true;
        }
      } else {
        lines := lines + [all[k]];
      }
    }
    assert all[|all|..] == [];
    if !replaced {
      lines := lines + [e.Line()];
    }
  }

  lemma RemainStep(done: seq<string>, all: seq<string>, k: nat, key: string)
    requires k < |all|
    ensures (if Removes(key, all[k]) then done else done + [all[k]]) + Remaining(all[k + 1..], key) ==
        done + Remaining(all[k..], key)
  {
    assert all[k..][0] == all[k] && all[k..][1..] == all[k + 1..];
  }

  method RemainingLines(all: seq<string>, key: string) returns (lines: seq<string>)
    ensures lines == Remaining(all, key)
  {
    lines := [];
    for k := 0 to |all|
      invariant lines + Remaining(all[k..], key) == Remaining(all, key)
    {
      RemainStep(lines, all, k, key);
      if !Removes(key, all[k]) {
        lines := lines + [all[k]];
      }
    }
    assert all[|all|..] == [];
  }

  class FstabManager {
    /** The file's text, if it exists. */
    var content: Option<string>

    constructor (content: Option<string>)
      ensures this.content == content
    {
      this.content := content;
    }

    method UpsertEntry(e: Entry)
      modifies this
      ensures content == Some(Upserted(old(content), e))
    {
      if content.None? {
        content := Some(e.Line() + "\n");
        assert Rewritten([], e, false) == [e.Line()];
        return;
      }
      var lines := RewriteLines(Lines(content.value), e);
      content := Some(Unlines(lines));
    }

    method RemoveEntry(key: string)
      modifies this
      ensures content == if old(content).None? then None else Some(Removed(old(content).value, key))
    {
      if content.None? {
        return;
      }
      var lines := RemainingLines(Lines(content.value), key);
      content := Some(Unlines(lines));
    }
  }

  // ------------------------------------------------------ the printed line

  const FLAGS := "0\t2"

  lemma FlagFields()
    ensures Fields(FLAGS) == ["0", "2"]
  {
    assert Solid("0") && Solid("2");
    FieldsSingle("2");
    FieldsCons("0", "2");
    assert FLAGS == "0" + "\t" + "2";
  }

  lemma TwoMoreFields(a: string, b: string, rest: string)
    requires Solid(a) && Solid(b)
    ensures Fields(a + "\t" + (b + "\t" + rest)) == [a, b] + Fields(rest)
  {
    FieldsCons(b, rest);
    FieldsCons(a, b + "\t" + rest);
  }

  lemma SixFields(a: string, b: string, c: string, d: string)
    requires Solid(a) && Solid(b) && Solid(c) && Solid(d)
    ensures Fields(a + "\t" + (b + "\t" + (c + "\t" + (d + "\t" + FLAGS)))) == [a, b, c, d, "0", "2"]
  {
    FlagFields();
    TwoMoreFields(c, d, FLAGS);
    TwoMoreFields(a, b, c + "\t" + (d + "\t" + FLAGS));
  }

  lemma PrintedEnds(e: Entry)
    ensures var l := e.Line(); l[0] == 'U' && l[|l| - 1] == '2'
  {
    var tail := e.mountPoint + "\t" + (e.fsType + "\t" + (e.options + "\t" + "0\t2"));
    assert tail[|tail| - 1] == '2';
    assert e.Line() == e.Device() + "\t" + tail;
  }

  lemma PrintedOneLine(e: Entry)
    requires e.Proper()
    ensures '\n' !in e.Line()
  {
  }

  lemma PrintedColumns(e: Entry)
    requires e.Proper()
    ensures Columns(e.Line()) == [e.Device(), e.mountPoint, e.fsType, e.options, "0", "2"]
  {
    PrintedEnds(e);
    TrimTight(e.Line());
    SixFields(e.Device(), e.mountPoint, e.fsType, e.options);
  }

  lemma PrintedMatchesItself(e: Entry)
    requires e.Proper()
    ensures e.Matches(e.Line())
  {
    PrintedColumns(e);
  }
}
