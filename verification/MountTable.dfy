/** Parsing `/proc/mounts` and `/etc/fstab` text (crates/cluster-common/src/device.rs). */
module MountTable {
  import opened Common
  import opened Text

  datatype MountEntry = MountEntry(device: string, mountPoint: string, fsType: string, options: seq<string>)

  /** The number and text of a line with fewer than three columns. */
  datatype BadLine = BadLine(number: nat, text: string)

  function EntryOf(columns: seq<string>): MountEntry
    requires |columns| >= 3
  {
    MountEntry(columns[0], columns[1], columns[2], if |columns| >= 4 then Split(columns[3], ',') else [])
  }

  predicate WellFormed(line: string) {
    Columns(line) == [] || |Columns(line)| >= 3
  }

  function EntriesOfLine(line: string): seq<MountEntry> {
    var columns := Columns(line);
    if |columns| >= 3 then [EntryOf(columns)] else []
  }

  function Entries(lines: seq<string>): seq<MountEntry> {
    if lines == [] then [] else EntriesOfLine(lines[0]) + Entries(lines[1..])
  }

  lemma {:induction false} EntriesConcat(a: seq<string>, b: seq<string>)
    ensures Entries(a + b) == Entries(a) + Entries(b)
  {
    if a == [] {
      assert a + b == b;
    } else {
      assert (a + b)[1..] == a[1..] + b;
      EntriesConcat(a[1..], b);
    }
  }

  lemma EntriesSnoc(lines: seq<string>, k: nat)
    requires k < |lines|
    ensures Entries(lines[..k + 1]) == Entries(lines[..k]) + EntriesOfLine(lines[k])
  {
    assert lines[..k + 1] == lines[..k] + [lines[k]];
    EntriesConcat(lines[..k], [lines[k]]);
    assert Entries([lines[k]]) == EntriesOfLine(lines[k]) + [];
  }

  /** These lines parse, to these entries. */
  ghost predicate ParsesTo(lines: seq<string>, entries: seq<MountEntry>) {
    (forall line | line in lines :: WellFormed(line)) && entries == Entries(lines)
  }

  lemma ParsesSnoc(lines: seq<string>, k: nat, entries: seq<MountEntry>)
    requires k < |lines| && ParsesTo(lines[..k], entries) && WellFormed(lines[k])
    ensures ParsesTo(lines[..k + 1], entries + EntriesOfLine(lines[k]))
  {
    EntriesSnoc(lines, k);
    assert lines[..k + 1] == lines[..k] + [lines[k]];
  }

  /** What parsing these lines means: all their entries, or the first one that is too short. */
  ghost predicate Parses(lines: seq<string>, r: Result<seq<MountEntry>, BadLine>) {
    match r
    case Ok(entries) => ParsesTo(lines, entries)
    case Err(BadLine(number, text)) =>
      && 1 <= number <= |lines| && !WellFormed(lines[number - 1]) && text == Trim(lines[number - 1])
      && ParsesTo(lines[..number - 1], Entries(lines[..number - 1]))
  }

  /** The entry of one line, none for a blank or a comment. */
  method ParseLine(line: string, number: nat) returns (r: Result<seq<MountEntry>, BadLine>)
    ensures r.Ok? ==> WellFormed(line) && r.value == EntriesOfLine(line)
    ensures r.Err? ==> !WellFormed(line) && r.error == BadLine(number, Trim(line))
  {
    var columns := Columns(line);
    if columns == [] {
      return Ok([]);
    }
    if |columns| < 3 {
      return Err(BadLine(number, Trim(line)));
    }
    return Ok([EntryOf(columns)]);
  }

  method ParseLines(lines: seq<string>) returns (r: Result<seq<MountEntry>, BadLine>)
    ensures Parses(lines, r)
  {
    var entries: seq<MountEntry> := [];
    for k := 0 to |lines|
      invariant ParsesTo(lines[..k], entries)
    {
      var parsed := ParseLine(lines[k], k + 1);
      if parsed.Err? {
        return parsed;
      }
      ParsesSnoc(lines, k, entries);
      entries := entries + parsed.value;
    }
    assert lines[..|lines|] == lines;
    r := Ok(entries);
  }

  method Parse(content: string) returns (r: Result<seq<MountEntry>, BadLine>)
    ensures Parses(Lines(content), r)
  {
    r := ParseLines(Lines(content));
  }

  /** An entry at that mount point. */
  function FindByMountPoint(entries: seq<MountEntry>, target: string): (r: Option<MountEntry>)
    ensures r.Some? ==> r.value in entries && r.value.mountPoint == target
    ensures r.None? <==> forall e | e in entries :: e.mountPoint != target
  {
    if entries == [] then None
    else if entries[0].mountPoint == target then Some(entries[0])
    else FindByMountPoint(entries[1..], target)
  }

  /** It is the first such entry. */
  lemma {:induction false} FindsTheFirst(entries: seq<MountEntry>, target: string, k: nat)
    requires k < |entries| && entries[k].mountPoint == target
    requires forall j | 0 <= j < k :: entries[j].mountPoint != target
    ensures FindByMountPoint(entries, target) == Some(entries[k])
  {
    if k > 0 {
      assert entries[0].mountPoint != target;
      FindsTheFirst(entries[1..], target, k - 1);
    }
  }

  /** The devices behind /boot and /boot/firmware. */
  function BootDevices(entries: seq<MountEntry>): (r: seq<string>)
    ensures forall d :: d in r <==>
        exists e | e in entries :: e.device == d && (e.mountPoint == "/boot" || e.mountPoint == "/boot/firmware")
  {
    if entries == [] then []
    else
      (if entries[0].mountPoint == "/boot" || entries[0].mountPoint == "/boot/firmware" then [entries[0].device]
          else [])
      + BootDevices(entries[1..])
  }

  /** Parsing fails exactly on a table with a line of one or two columns. */
  lemma ParseFailsIff(lines: seq<string>, r: Result<seq<MountEntry>, BadLine>)
    requires Parses(lines, r)
    ensures r.Err? <==> exists line | line in lines :: 0 < |Columns(line)| < 3
  {
    if r.Err? {
      assert lines[r.error.number - 1] in lines;
    }
  }

  /** A line of three columns or more is one entry of the first three and of the parts of the fourth. */
  lemma LineEntry(line: string)
    ensures |Columns(line)| == 3 ==>
              EntriesOfLine(line) == [MountEntry(Columns(line)[0], Columns(line)[1], Columns(line)[2], [])]
    ensures |Columns(line)| > 3 ==>
              EntriesOfLine(line) ==
              [MountEntry(Columns(line)[0], Columns(line)[1], Columns(line)[2], Split(Columns(line)[3], ','))]
    ensures Columns(line) == [] ==> EntriesOfLine(line) == []
  {
  }
}
