/** Lines, whitespace and columns of text files, as the standard library's string operations see them. */
module Text {

  /** The characters with the Unicode White_Space property. */
  const WHITESPACE: set<char> := {
    '\t', '\n', '\U{0B}', '\U{0C}', '\r', ' ', '\U{85}', '\U{A0}', '\U{1680}',
    '\U{2000}', '\U{2001}', '\U{2002}', '\U{2003}', '\U{2004}', '\U{2005}', '\U{2006}', '\U{2007}', '\U{2008}',
    '\U{2009}', '\U{200A}', '\U{2028}', '\U{2029}', '\U{202F}', '\U{205F}', '\U{3000}'
  }

  predicate IsWhitespace(c: char) {
    c in WHITESPACE
  }

  predicate Solid(s: string) {
    s != "" && forall c | c in s :: !IsWhitespace(c)
  }

  lemma PrintableIsSolid(s: string)
    requires s != "" && forall c | c in s :: '!' <= c <= '~'
    ensures Solid(s)
  {
  }

  // ------------------------------------------------------------------ lines

  function Find(s: string, c: char): (i: nat)
    ensures i <= |s|
    ensures i < |s| ==> s[i] == c
    ensures forall j | 0 <= j < i :: s[j] != c
  {
    if s == "" || s[0] == c then 0 else 1 + Find(s[1..], c)
  }

  predicate EndsWithCr(line: string) {
    line != "" && line[|line| - 1] == '\r'
  }

  function StripCr(line: string): string {
    if EndsWithCr(line) then line[..|line| - 1] else line
  }

  /**
    The lines of a text: split at newlines, a carriage return before a newline
    dropped, no line after a final newline.
   */
  function Lines(s: string): seq<string>
    decreases |s|
  {
    var i := Find(s, '\n');
    if s == "" then []
    else if i == |s| then [s]
    else [StripCr(s[..i])] + Lines(s[i + 1..])
  }

  function Join(lines: seq<string>): string {
    if lines == [] then ""
    else if |lines| == 1 then lines[0]
    else lines[0] + "\n" + Join(lines[1..])
  }

  /** Lines joined and ended by newlines; no lines at all still make one newline. */
  function Unlines(lines: seq<string>): string {
    Join(lines) + "\n"
  }

  ghost predicate OneLiners(lines: seq<string>) {
    forall l | l in lines :: '\n' !in l
  }

  function StripAll(lines: seq<string>): (r: seq<string>)
    ensures |r| == |lines|
  {
    seq(|lines|, i requires 0 <= i < |lines| => StripCr(lines[i]))
  }

  lemma UnlinesCons(lines: seq<string>)
    requires lines != []
    ensures Unlines(lines) == lines[0] + "\n" + (if |lines| == 1 then "" else Unlines(lines[1..]))
  {
  }

  lemma {:induction false} LinesOneLiners(s: string)
    ensures OneLiners(Lines(s))
    decreases |s|
  {
    var i := Find(s, '\n');
    if s != "" && i < |s| {
      LinesOneLiners(s[i + 1..]);
    }
  }

  lemma FirstLine(l: string, rest: string)
    requires '\n' !in l
    ensures Lines(l + "\n" + rest) == [StripCr(l)] + Lines(rest)
  {
    var s := l + "\n" + rest;
    assert Find(s, '\n') == |l| by {
      assert s[|l|] == '\n';
      assert forall j | 0 <= j < |l| :: s[j] == l[j];
    }
    assert s[..|l|] == l && s[|l| + 1..] == rest;
  }

  lemma StripAllCons(lines: seq<string>)
    requires lines != []
    ensures StripAll(lines) == [StripCr(lines[0])] + StripAll(lines[1..])
  {
  }

  /** Writing lines and reading them back loses only a carriage return at a line's end. */
  lemma {:induction false} LinesOfUnlines(lines: seq<string>)
    requires lines != [] && OneLiners(lines)
    ensures Lines(Unlines(lines)) == StripAll(lines)
  {
    var rest := if |lines| == 1 then "" else Unlines(lines[1..]);
    UnlinesCons(lines);
    FirstLine(lines[0], rest);
    if |lines| > 1 {
      LinesOfUnlines(lines[1..]);
    }
    StripAllCons(lines);
  }

  lemma StripAllClean(lines: seq<string>)
    requires forall l | l in lines :: !EndsWithCr(l)
    ensures StripAll(lines) == lines
  {
  }

  // ---------------------------------------------------------------- columns

  function TrimEnd(s: string): string {
    if s != "" && IsWhitespace(s[|s| - 1]) then TrimEnd(s[..|s| - 1]) else s
  }

  function TrimStart(s: string): string {
    if s != "" && IsWhitespace(s[0]) then TrimStart(s[1..]) else s
  }

  function Trim(s: string): string {
    TrimStart(TrimEnd(s))
  }

  function TokenLength(s: string): (n: nat)
    ensures n <= |s|
    ensures forall i | 0 <= i < n :: !IsWhitespace(s[i])
    ensures n < |s| ==> IsWhitespace(s[n])
  {
    if s == "" || IsWhitespace(s[0]) then 0 else 1 + TokenLength(s[1..])
  }

  /** The maximal runs of non-whitespace. */
  function Fields(s: string): seq<string>
    decreases |s|
  {
    if s == "" then []
    else if IsWhitespace(s[0]) then Fields(s[1..])
    else [s[..TokenLength(s)]] + Fields(s[TokenLength(s)..])
  }

  /** The columns of an entry; blank lines and comments have none. */
  function Columns(line: string): seq<string> {
    var trimmed := Trim(line);
    if trimmed == "" || trimmed[0] == '#' then [] else Fields(trimmed)
  }

  predicate AllWhitespace(s: string) {
    forall c | c in s :: IsWhitespace(c)
  }

  lemma {:induction false} TrimEndKeeps(a: string, b: string)
    requires a != "" && !IsWhitespace(a[|a| - 1])
    ensures a <= TrimEnd(a + b)
  {
    if b == "" {
      assert a + b == a;
    } else if IsWhitespace(b[|b| - 1]) {
      assert (a + b)[..|a + b| - 1] == a + b[..|b| - 1];
      TrimEndKeeps(a, b[..|b| - 1]);
    }
  }

  lemma {:induction false} TrimStartSkips(lead: string, rest: string)
    requires AllWhitespace(lead) && rest != "" && !IsWhitespace(rest[0])
    ensures TrimStart(lead + rest) == rest
  {
    if lead == "" {
      assert lead + rest == rest;
    } else {
      assert (lead + rest)[1..] == lead[1..] + rest;
      TrimStartSkips(lead[1..], rest);
    }
  }

  lemma {:induction false} BlankTrimsAway(lead: string)
    requires AllWhitespace(lead)
    ensures TrimEnd(lead) == ""
  {
    if lead != "" {
      BlankTrimsAway(lead[..|lead| - 1]);
    }
  }

  /** Blank lines and comments, indented or not, have no columns. */
  lemma CommentsHaveNoColumns(lead: string, text: string)
    requires AllWhitespace(lead)
    ensures Columns(lead + "#" + text) == [] && Columns(lead) == []
  {
    BlankTrimsAway(lead);
    var line, start := lead + "#" + text, lead + "#";
    assert !IsWhitespace('#');
    TrimEndKeeps(start, text);
    var kept := TrimEnd(line);
    var rest := kept[|lead|..];
    assert kept == lead + rest && rest[0] == kept[|lead|] == '#';
    TrimStartSkips(lead, rest);
  }

  lemma ColumnsIgnoreCr(line: string)
    ensures Columns(StripCr(line)) == Columns(line)
  {
  }

  lemma TrimTight(s: string)
    requires s != "" && !IsWhitespace(s[0]) && !IsWhitespace(s[|s| - 1])
    ensures Trim(s) == s
  {
  }

  lemma FieldsCons(token: string, rest: string)
    requires Solid(token)
    ensures Fields(token + "\t" + rest) == [token] + Fields(rest)
  {
    var s := token + "\t" + rest;
    assert TokenLength(s) == |token| by {
      assert s[|token|] == '\t';
      assert forall i | 0 <= i < |token| :: s[i] == token[i];
    }
    assert s[..|token|] == token;
    assert s[|token|..] == "\t" + rest;
    assert ("\t" + rest)[1..] == rest;
  }

  lemma FieldsSingle(token: string)
    requires Solid(token)
    ensures Fields(token) == [token]
  {
    assert TokenLength(token) == |token|;
    assert token[..|token|] == token && token[|token|..] == "";
  }

  // ------------------------------------------------------------------ split

  /** The pieces between separators; always at least one. */
  function Split(s: string, c: char): (r: seq<string>)
    ensures r != []
    decreases |s|
  {
    var i := Find(s, c);
    if i == |s| then [s] else [s[..i]] + Split(s[i + 1..], c)
  }
}
