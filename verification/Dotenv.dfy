/** The .env reader (internal/dotenv/dotenv.go). Characters stand for bytes. */
module Dotenv {
  import opened Text
  import opened Selection

  // --- Lines ------------------------------------------------------------------------------------

  function DropReturn(line: string): string {
    if line != [] && line[|line| - 1] == '\r' then line[..|line| - 1] else line
  }

  // The tokens of a line scanner: split at newlines, one trailing carriage return dropped.
  function Lines(text: string): seq<string> {
    if text == [] then []
    else
      var i := IndexOf(text, '\n');
      [DropReturn(text[..i])] + if i < |text| then Lines(text[i + 1..]) else []
  }

  function Join(lines: seq<string>, eol: string): string {
    if lines == [] then "" else lines[0] + eol + Join(lines[1..], eol)
  }

  // Lines may end in either way, and the last need not end at all.
  lemma {:induction false} LinesOfJoined(lines: seq<string>, tail: string, eol: string)
    requires eol in {"\n", "\r\n"}
    requires forall l :: l in lines ==> '\n' !in l && (eol == "\n" && l != "" ==> l[|l| - 1] != '\r')
    requires '\n' !in tail && (tail != "" ==> tail[|tail| - 1] != '\r')
    ensures Lines(Join(lines, eol) + tail) == lines + (if tail == "" then [] else [tail])
  {
    hide Lines, Join;
    if lines != [] {
      var line, rest := lines[0], Join(lines[1..], eol) + tail;
      assert forall l :: l in lines[1..] ==> l in lines;
      LinesOfJoined(lines[1..], tail, eol);
      JoinFirst(lines, tail, eol);
      FirstLine(line, eol, rest);
      assert lines == [line] + lines[1..];
    } else {
      JoinNone(tail, eol);
      LastLine(tail);
    }
  }

  lemma JoinFirst(lines: seq<string>, tail: string, eol: string)
    requires lines != []
    ensures Join(lines, eol) + tail == lines[0] + eol + (Join(lines[1..], eol) + tail)
  {
  }

  lemma JoinNone(tail: string, eol: string)
    ensures Join([], eol) + tail == tail
  {
  }

  lemma FirstLine(line: string, eol: string, rest: string)
    requires eol in {"\n", "\r\n"} && '\n' !in line && (eol == "\n" && line != "" ==> line[|line| - 1] != '\r')
    ensures Lines(line + eol + rest) == [line] + Lines(rest)
  {
    var body := if eol == "\n" then line else line + "\r";
    assert line + eol + rest == body + "\n" + rest;
    FirstToken(body, rest);
    assert DropReturn(body) == line;
  }

  lemma FirstToken(body: string, rest: string)
    requires '\n' !in body
    ensures Lines(body + "\n" + rest) == [DropReturn(body)] + Lines(rest)
  {
    var text := body + "\n" + rest;
    FirstAt(text, '\n', |body|);
    assert text[..|body|] == body && text[|body| + 1..] == rest;
  }

  lemma LastLine(tail: string)
    requires '\n' !in tail && (tail != "" ==> tail[|tail| - 1] != '\r')
    ensures Lines(tail) == if tail == "" then [] else [tail]
  {
    assert IndexOf(tail, '\n') == |tail| && tail[..|tail|] == tail;
  }

  // --- Values -----------------------------------------------------------------------------------

  predicate Quoted(v: string, q: char) {
    |v| >= 2 && v[0] == q && v[|v| - 1] == q
  }

  // What a backslash and the next character stand for.
  function Escaped(c: char): string {
    match c
    case 'n' => "\n"
    case 't' => "\t"
    case '"' => "\""
    case '\\' => "\\"
    case other => ['\\', other]
  }

  function Unescape(s: string): string {
    if s == [] then []
    else if s[0] == '\\' && |s| > 1 then Escaped(s[1]) + Unescape(s[2..])
    else [s[0]] + Unescape(s[1..])
  }

  function Unquoted(v: string): string {
    if Quoted(v, '\'') then v[1..|v| - 1]
    else if Quoted(v, '"') then Unescape(v[1..|v| - 1])
    else v
  }

  /** Between single quotes everything is literal, between double quotes escapes are read, and anything
      else is verbatim. */
  method Unquote(v: string) returns (r: string)
    ensures r == Unquoted(v)
    ensures forall inner :: v == "'" + inner + "'" ==> r == inner
    ensures forall inner :: v == "\"" + inner + "\"" ==> r == Unescape(inner)
    ensures |v| < 2 || v[0] != v[|v| - 1] || v[0] !in {'\'', '"'} ==> r == v
  {
    hide Unescape;
    if |v| >= 2 && v[0] == '\'' && v[|v| - 1] == '\'' { return v[1..|v| - 1]; }
    if |v| >= 2 && v[0] == '"' && v[|v| - 1] == '"' {
      var inner := v[1..|v| - 1];
      var i := 0;
      r := [];
      while i < |inner|
        invariant i <= |inner| && r + Unescape(inner[i..]) == Unescape(inner)
      {
        if inner[i] == '\\' && i + 1 < |inner| {
          UnescapesPair(inner, i, r);
          match inner[i + 1] {
            case 'n' => r := r + "\n";
            case 't' => r := r + "\t";
            case '"' => r := r + "\"";
            case '\\' => r := r + "\\";
            case other => r := r + "\\" + [other];
          }
          i := i + 1;
        } else {
          UnescapesOne(inner, i, r);
          r := r + [inner[i]];
        }
        i := i + 1;
      }
      UnescapesNothing();
      assert inner[|inner|..] == [];
      return r;
    }
    r := v;
  }

  /** What the escapes mean: the four the escaper writes stand for themselves wherever they are, a
      backslash before any other character or at the end stays, and so does every other character. */
  lemma EscapesMean(v: string, c: char, rest: string)
    ensures Unescape(Escape(v) + rest) == v + Unescape(rest)
    ensures c !in {'n', 't', '"', '\\'} ==> Unescape(['\\', c] + rest) == ['\\', c] + Unescape(rest)
    ensures Unescape("\\") == "\\"
    ensures c != '\\' ==> Unescape([c] + rest) == [c] + Unescape(rest)
  {
    UnescapeEscapeThen(v, rest);
    assert (['\\', c] + rest)[2..] == rest && ([c] + rest)[1..] == rest;
    var backslash := "\\";
    assert backslash[1..] == [] && Unescape(backslash) == [backslash[0]] + Unescape([]);
  }

  lemma UnescapesPair(s: string, i: nat, r: string)
    requires i + 1 < |s| && s[i] == '\\'
    ensures r + Unescape(s[i..]) == r + Escaped(s[i + 1]) + Unescape(s[i + 2..])
  {
    assert s[i..][1] == s[i + 1] && s[i..][2..] == s[i + 2..];
  }

  lemma UnescapesNothing()
    ensures Unescape([]) == []
  {
  }

  lemma UnescapesOne(s: string, i: nat, r: string)
    requires i < |s| && (s[i] != '\\' || i + 1 == |s|)
    ensures r + Unescape(s[i..]) == r + [s[i]] + Unescape(s[i + 1..])
  {
    assert s[i..][1..] == s[i + 1..];
  }

  // --- Keys -------------------------------------------------------------------------------------

  predicate Letter(c: char) {
    c == '_' || 'A' <= c <= 'Z' || 'a' <= c <= 'z'
  }

  predicate EnvName(k: string) {
    k != "" && Letter(k[0]) && forall i :: 0 < i < |k| ==> Letter(k[i]) || '0' <= k[i] <= '9'
  }

  predicate DigitCode(c: char) {
    48 <= c as int <= 57
  }

  // Upper-case letters, lower-case letters and the underscore.
  predicate LetterCode(c: char) {
    65 <= c as int <= 90 || 97 <= c as int <= 122 || c as int == 95
  }

  lemma NamesInCodes(k: string)
    ensures EnvName(k) <==> k != "" && !DigitCode(k[0]) && forall c :: c in k ==> DigitCode(c) || LetterCode(c)
  {
    assert forall c: char :: Letter(c) <==> LetterCode(c);
    assert forall c: char :: '0' <= c <= '9' <==> DigitCode(c);
    assert forall c: char :: LetterCode(c) ==> !DigitCode(c);
    hide Letter, LetterCode, DigitCode;
    if k != "" && !DigitCode(k[0]) && forall c :: c in k ==> DigitCode(c) || LetterCode(c) {
      forall i | 0 <= i < |k| ensures DigitCode(k[i]) || LetterCode(k[i]) { assert k[i] in k; }
    }
  }

  method ValidKey(k: string) returns (ok: bool)
    ensures ok <==> EnvName(k)
    ensures ok <==> k != "" && !DigitCode(k[0]) && forall c :: c in k ==> DigitCode(c) || LetterCode(c)
  {
    NamesInCodes(k);
    if k == "" { return false; }
    for i := 0 to |k|
      invariant i > 0 ==> Letter(k[0])
      invariant forall j :: 0 < j < i ==> Letter(k[j]) || '0' <= k[j] <= '9'
    {
      if k[i] == '_' {
      } else if 'A' <= k[i] <= 'Z' || 'a' <= k[i] <= 'z' {
      } else if '0' <= k[i] <= '9' && i > 0 {
      } else {
        return false;
      }
    }
    ok := true;
  }

  // --- Files ------------------------------------------------------------------------------------

  datatype Line = Ignored | Assignment(key: string, value: string) | NoEquals | BadKey

  function TrimPrefix(s: string, prefix: string): string {
    if prefix <= s then s[|prefix|..] else s
  }

  // What one line means.
  function Read(raw: string): Line {
    var trimmed := TrimSpace(raw);
    if trimmed == "" || trimmed[0] == '#' then Ignored
    else
      var line := TrimPrefix(trimmed, "export ");
      var eq := IndexOf(line, '=');
      if eq == |line| then NoEquals
      else
        var key := TrimSpace(line[..eq]);
        if EnvName(key) then Assignment(key, Unquoted(TrimSpace(line[eq + 1..]))) else BadKey
  }

  predicate Readable(line: Line) {
    line.Ignored? || line.Assignment?
  }

  predicate AllReadable(lines: seq<string>) {
    forall i :: 0 <= i < |lines| ==> Readable(Read(lines[i]))
  }

  // Later assignments win.
  function Vars(lines: seq<string>): map<string, string> {
    if lines == [] then map[]
    else
      var last := Read(lines[|lines| - 1]);
      var earlier := Vars(lines[..|lines| - 1]);
      if last.Assignment? then earlier[last.key := last.value] else earlier
  }

  datatype Parsed = Loaded(vars: map<string, string>) | Rejected(line: nat, why: Line)

  method Parse(text: string) returns (r: Parsed)
    ensures r.Loaded? <==> AllReadable(Lines(text))
    ensures r.Loaded? ==> r.vars == Vars(Lines(text))
    ensures r.Rejected? ==>
      && 0 < r.line <= |Lines(text)| && r.why == Read(Lines(text)[r.line - 1]) && !Readable(r.why)
      && AllReadable(Lines(text)[..r.line - 1])
  {
    hide Read, Lines;
    var lines := Lines(text);
    var out: map<string, string> := map[];
    var lineNo := 0;
    while lineNo < |lines|
      invariant lineNo <= |lines|
      invariant AllReadable(lines[..lineNo])
      invariant out == Vars(lines[..lineNo])
    {
      var line := ReadLine(lines[lineNo]);
      lineNo := lineNo + 1;
      assert lines[..lineNo][..lineNo - 1] == lines[..lineNo - 1];
      match line {
        case Ignored =>
        case Assignment(key, value) => out := out[key := value];
        case _ =>
          assert !Readable(Read(lines[lineNo - 1]));
          return Rejected(lineNo, line);
      }
    }
    assert lines[..|lines|] == lines;
    r := Loaded(out);
  }

  // The body of the loop of Parse, up to the assignment.
  method ReadLine(raw: string) returns (r: Line)
    ensures r == Read(raw)
  {
    var line := TrimSpace(raw);
    if line == "" || line[0] == '#' { return Ignored; }
    line := TrimPrefix(line, "export ");
    var eq := IndexOf(line, '=');
    if eq == |line| { return NoEquals; }
    var key := TrimSpace(line[..eq]);
    var ok := ValidKey(key);
    if !ok { return BadKey; }
    var val := Unquote(TrimSpace(line[eq + 1..]));
    r := Assignment(key, val);
  }

  // --- The lines it reads -----------------------------------------------------------------------

  /** An assignment with its space: lead, "export " and a gap if exported, the name, space around the
      equals sign, the value and a trail. */
  datatype Written = Written(lead: string, exported: bool, gap: string, key: string, before: string, after: string,
                             value: string, trail: string) {

    function Prefix(): string {
      if exported then "export " + gap else ""
    }

    // Up to and including the equals sign.
    function Left(): string {
      Prefix() + key + before + "="
    }

    function Text(): string {
      lead + (Left() + after + value) + trail
    }

    // A variable called "export" cannot be followed by a blank: it would be taken for the prefix.
    predicate Proper() {
      && AllSpace(lead) && AllSpace(gap) && AllSpace(before) && AllSpace(after) && AllSpace(trail)
      && EnvName(key) && BareEnds(value)
      && !(!exported && key == "export" && before != "" && before[0] == ' ')
    }
  }

  lemma SpacesConcat(a: string, b: string)
    ensures AllSpace(a + b) <==> AllSpace(a) && AllSpace(b)
  {
    if AllSpace(a + b) {
      forall i | 0 <= i < |a| ensures SpaceCode(a[i]) { assert (a + b)[i] == a[i]; }
      forall i | 0 <= i < |b| ensures SpaceCode(b[i]) { assert (a + b)[|a| + i] == b[i]; }
    }
  }

  // Trimming what was padded with space.
  lemma TrimPadded(lead: string, middle: string, trail: string)
    requires AllSpace(lead) && AllSpace(trail) && BareEnds(middle)
    ensures TrimSpace(lead + middle + trail) == middle
  {
    hide SpaceCode, AllSpace, BareEnds, TrimSpace;
    var s := lead + middle + trail;
    assert s[..|lead|] == lead && s[|lead| + |middle|..] == trail && s[|lead|..|lead| + |middle|] == middle;
    assert CutAt(s, middle, |lead|);
    TrimSpaceTrims(s);
    TrimsToUnique(s, TrimSpace(s), middle);
  }

  lemma NamesHaveNoSpace(key: string)
    requires EnvName(key)
    ensures key != "" && !SpaceCode(key[0]) && !SpaceCode(key[|key| - 1]) && '=' !in key && key[0] != '#'
    ensures forall i :: 0 <= i < |key| ==> !SpaceCode(key[i])
  {
  }

  // The trimmed line.
  lemma WrittenTrims(w: Written)
    requires w.Proper()
    ensures TrimSpace(w.Text()) == if w.value == "" then w.Left() else w.Left() + w.after + w.value
  {
    hide SpaceCode, EnvName;
    NamesHaveNoSpace(w.key);
    var first := w.Left()[0];
    assert first == if w.exported then 'e' else w.key[0];
    assert !SpaceCode('e') && !SpaceCode('=') by { PlainCodes(); }
    if w.value == "" {
      SpacesConcat(w.after, w.trail);
      assert w.Text() == w.lead + w.Left() + (w.after + w.trail);
      TrimPadded(w.lead, w.Left(), w.after + w.trail);
    } else {
      TrimPadded(w.lead, w.Left() + w.after + w.value, w.trail);
    }
  }

  lemma PlainCodes()
    ensures !SpaceCode('e') && !SpaceCode('=') && !SpaceCode('#') && SpaceCode(' ')
  {
  }

  lemma PrefixTrimmed(prefix: string, rest: string)
    ensures TrimPrefix(prefix + rest, prefix) == rest
  {
  }

  lemma LeftSpelled(w: Written, rest: string)
    ensures w.Left() + rest == (if w.exported then "export " + (w.gap + w.key + w.before + "=" + rest)
                                else w.key + w.before + "=" + rest)
  {
  }

  // What is left after dropping "export ".
  lemma WrittenDropsExport(w: Written, rest: string)
    requires w.Proper()
    ensures TrimPrefix(w.Left() + rest, "export ") == (if w.exported then w.gap else "") + w.key + w.before + "=" + rest
  {
    hide Written.Proper, TrimPrefix;
    LeftSpelled(w, rest);
    hide Written.Left;
    if w.exported {
      PrefixTrimmed("export ", w.gap + w.key + w.before + "=" + rest);
    } else {
      NotExported(w, rest);
      NoPrefix("export ", w.key + w.before + "=" + rest);
      assert "" + w.key == w.key;
    }
  }

  lemma NoPrefix(prefix: string, s: string)
    requires !(prefix <= s)
    ensures TrimPrefix(s, prefix) == s
  {
  }

  lemma NotExported(w: Written, rest: string)
    requires w.Proper() && !w.exported
    ensures !("export " <= w.key + w.before + "=" + rest)
  {
    NamesHaveNoSpace(w.key);
    var line, n := w.key + w.before + "=" + rest, |w.key|;
    assert n >= 7 ==> line[6] == w.key[6];
    assert line[n] == if w.before == "" then '=' else w.before[0];
    assert w.before != "" ==> SpaceCode(w.before[0]);
    if n == 6 { SixLetters(w.key, line); }
    ExportLetters(line, n);
  }

  lemma SixLetters(key: string, line: string)
    requires |key| == 6 && key <= line
    ensures "export " <= line ==> key == "export"
  {
    var e := "export ";
    assert key == line[..6] && "export" == e[..6];
  }

  // The blank after "export" and the letters before it.
  lemma ExportLetters(line: string, n: nat)
    requires n < |line|
    ensures "export " <= line && n < 6 ==> line[n] != '=' && !SpaceCode(line[n])
    ensures "export " <= line && n >= 6 ==> line[6] == ' '
  {
    var e := "export ";
    assert forall i :: 0 <= i < 6 ==> e[i] != '=' && !SpaceCode(e[i]);
    assert e <= line && n < 6 ==> line[n] == e[n];
    assert e <= line && n >= 6 ==> line[6] == e[6];
  }

  lemma ReadsSplit(raw: string, eq: nat, key: string, value: string)
    requires TrimSpace(raw) != "" && TrimSpace(raw)[0] != '#' && EnvName(key)
    requires var line := TrimPrefix(TrimSpace(raw), "export ");
      && IndexOf(line, '=') == eq < |line|
      && TrimSpace(line[..eq]) == key && TrimSpace(line[eq + 1..]) == value
    ensures Read(raw) == Assignment(key, Unquoted(value))
  {
    hide TrimSpace, TrimPrefix, EnvName, Unquoted, IndexOf;
  }

  lemma ReadsWritten(w: Written)
    requires w.Proper()
    ensures Read(w.Text()) == Assignment(w.key, Unquoted(w.value))
  {
    hide SpaceCode, EnvName, Unquoted, TrimSpace, TrimPrefix, Read, IndexOf, TrimsTo;
    var rest := if w.value == "" then "" else w.after + w.value;
    var gap := if w.exported then w.gap else "";
    WrittenTrims(w);
    NamesHaveNoSpace(w.key);
    assert w.Left() + rest == TrimSpace(w.Text());
    assert w.Left()[0] == if w.exported then 'e' else w.key[0];
    WrittenDropsExport(w, rest);
    var line, eq := gap + w.key + w.before + "=" + rest, |gap + w.key + w.before|;
    NoEqualsInSpace(gap);
    NoEqualsInSpace(w.before);
    FirstAt(line, '=', eq);
    assert line[..eq] == gap + w.key + w.before && line[eq + 1..] == rest;
    TrimPadded(gap, w.key, w.before);
    TrimValue(w, rest);
    ReadsSplit(w.Text(), eq, w.key, w.value);
  }

  lemma NoEqualsInSpace(s: string)
    requires AllSpace(s)
    ensures '=' !in s
  {
  }

  lemma TrimValue(w: Written, rest: string)
    requires w.Proper() && rest == if w.value == "" then "" else w.after + w.value
    ensures TrimSpace(rest) == w.value
  {
    hide SpaceCode, EnvName, AllSpace, BareEnds, TrimSpace;
    if w.value == "" {
      NothingTrims();
    } else {
      NothingTrims();
      assert rest == w.after + w.value + "";
      TrimPadded(w.after, w.value, "");
    }
  }

  lemma NothingTrims()
    ensures TrimSpace("") == "" && AllSpace("")
  {
  }

  // A string is its trimmed middle with space on both sides.
  lemma Cuts(s: string) returns (a: string, b: string)
    ensures s == a + TrimSpace(s) + b && AllSpace(a) && AllSpace(b) && BareEnds(TrimSpace(s))
  {
    hide SpaceCode, TrimSpace, AllSpace, BareEnds;
    var middle := TrimSpace(s);
    TrimSpaceTrims(s);
    var i :| 0 <= i <= |s| - |middle| && CutAt(s, middle, i);
    a, b := s[..i], s[i + |middle|..];
  }

  // A line that reads as an assignment was written as one.
  lemma AssignmentWasWritten(raw: string) returns (w: Written)
    requires Read(raw).Assignment?
    ensures w.Proper() && w.Text() == raw && Read(raw) == Assignment(w.key, Unquoted(w.value))
  {
    hide SpaceCode, EnvName, Unquoted, TrimSpace, BareEnds, AllSpace, TrimPrefix, IndexOf, Written.Text, Written.Proper, Read;
    ReadShape(raw);
    var trimmed := TrimSpace(raw);
    var line := TrimPrefix(trimmed, "export ");
    var eq := IndexOf(line, '=');
    var left, right := line[..eq], line[eq + 1..];
    var lead, end := Cuts(raw);
    var gap, before := Cuts(left);
    var after, trail := Cuts(right);
    SplitsAtEquals(trimmed);
    var exported := "export " <= trimmed;
    var key := TrimSpace(left);
    if !exported {
      assert trimmed == gap + key + (before + "=" + right);
      StartsPlain(trimmed, gap, key, before + "=" + right);
    }
    w := Written(lead, exported, gap, key, before, after, TrimSpace(right), trail + end);
    IsProper(w, trimmed, trail, end, "=" + right);
    Assembled(w, trimmed, left, right, trail, end);
  }

  lemma IsProper(w: Written, trimmed: string, trail: string, end: string, rest: string)
    requires AllSpace(w.lead) && AllSpace(w.gap) && AllSpace(w.before) && AllSpace(w.after)
    requires AllSpace(trail) && AllSpace(end) && w.trail == trail + end
    requires EnvName(w.key) && BareEnds(w.value) && w.exported == ("export " <= trimmed)
    requires !w.exported ==> w.gap == "" && trimmed == w.key + w.before + rest
    ensures w.Proper()
  {
    hide SpaceCode, EnvName, BareEnds, AllSpace;
    SpacesConcat(trail, end);
    if !w.exported { ExportNotTaken(w, trimmed); }
  }

  lemma ReadShape(raw: string)
    requires Read(raw).Assignment?
    ensures var line := TrimPrefix(TrimSpace(raw), "export ");
      var eq := IndexOf(line, '=');
      && eq < |line| && EnvName(TrimSpace(line[..eq]))
      && Read(raw) == Assignment(TrimSpace(line[..eq]), Unquoted(TrimSpace(line[eq + 1..])))
  {
    hide TrimSpace, TrimPrefix, EnvName, Unquoted, IndexOf;
  }

  lemma SplitsAtEquals(trimmed: string)
    requires var line := TrimPrefix(trimmed, "export "); IndexOf(line, '=') < |line|
    ensures var line := TrimPrefix(trimmed, "export ");
      var eq := IndexOf(line, '=');
      trimmed == (if "export " <= trimmed then "export " else "") + line[..eq] + "=" + line[eq + 1..]
  {
    hide TrimPrefix;
    var line := TrimPrefix(trimmed, "export ");
    var eq := IndexOf(line, '=');
    hide IndexOf;
    SplitAt(line, eq);
    PrefixBack("export ", trimmed);
  }

  lemma SplitAt(line: string, eq: nat)
    requires eq < |line| && line[eq] == '='
    ensures line == line[..eq] + "=" + line[eq + 1..]
  {
  }

  lemma PrefixBack(prefix: string, s: string)
    ensures s == (if prefix <= s then prefix else "") + TrimPrefix(s, prefix)
  {
  }

  lemma Assembled(w: Written, trimmed: string, left: string, right: string, trail: string, end: string)
    requires trimmed == (if w.exported then "export " else "") + left + "=" + right
    requires left == w.gap + w.key + w.before && (!w.exported ==> w.gap == "")
    requires right == w.after + w.value + trail && w.trail == trail + end
    ensures w.Text() == w.lead + trimmed + end
  {
    hide Written.Left;
    LeftSpelled(w, w.after + w.value + trail);
    var all := w.Left() + w.after + w.value + trail;
    assert all == w.Left() + (w.after + w.value + trail);
    if w.exported {
      assert trimmed == "export " + (w.gap + w.key + w.before + "=" + (w.after + w.value + trail));
    } else {
      assert trimmed == w.key + w.before + "=" + (w.after + w.value + trail);
    }
    assert w.Text() == w.lead + all + end;
  }

  lemma SpaceFirst(s: string)
    requires s != "" && AllSpace(s)
    ensures SpaceCode(s[0])
  {
  }

  // A trimmed line without the prefix starts with its name.
  lemma StartsPlain(trimmed: string, gap: string, key: string, rest: string)
    requires trimmed == gap + key + rest && BareEnds(trimmed) && AllSpace(gap)
    ensures gap == ""
  {
    hide AllSpace, SpaceCode;
    if gap != "" { SpaceFirst(gap); }
  }

  lemma ExportNotTaken(w: Written, trimmed: string)
    requires !("export " <= trimmed) && w.key + w.before <= trimmed
    ensures !(w.key == "export" && w.before != "" && w.before[0] == ' ')
  {
    assert w.key == "export" && w.before != "" && w.before[0] == ' ' ==> "export " <= w.key + w.before;
  }

  /** Exactly the lines that were written so are read as assignments. */
  lemma ReadsAssignments(raw: string, key: string, value: string)
    ensures Read(raw) == Assignment(key, value)
      <==> exists w: Written :: w.Proper() && w.Text() == raw && w.key == key && Unquoted(w.value) == value
  {
    hide Read, Written.Proper, Written.Text;
    if Read(raw) == Assignment(key, value) {
      var w := AssignmentWasWritten(raw);
    }
    if w: Written :| w.Proper() && w.Text() == raw && w.key == key && Unquoted(w.value) == value {
      ReadsWritten(w);
    }
  }

  predicate Blank(raw: string) {
    AllSpace(raw) || exists i :: 0 <= i < |raw| && raw[i] == '#' && AllSpace(raw[..i])
  }

  /** Blank lines and comments are ignored; of the others, those without an equals sign are rejected as
      such. */
  lemma ReadsTheRest(raw: string)
    ensures Read(raw).Ignored? <==> Blank(raw)
    ensures Read(raw).NoEquals? <==> !Blank(raw) && '=' !in raw
  {
    hide SpaceCode, EnvName, Unquoted, TrimSpace, Read, AllSpace, BareEnds, Blank;
    var trimmed := TrimSpace(raw);
    var lead, end := Cuts(raw);
    BlankWhenTrimmed(lead, trimmed, end);
    NoEqualsInSpace(lead);
    NoEqualsInSpace(end);
    EqualsSurvives(trimmed);
    ReadOtherwise(raw);
  }

  lemma EqualsSurvives(s: string)
    ensures '=' in TrimPrefix(s, "export ") <==> '=' in s
  {
    if "export " <= s { assert s == "export " + s[7..]; }
  }

  lemma ReadOtherwise(raw: string)
    ensures var trimmed := TrimSpace(raw);
      && (Read(raw).Ignored? <==> trimmed == "" || trimmed[0] == '#')
      && (Read(raw).NoEquals? <==> !(trimmed == "" || trimmed[0] == '#') && '=' !in TrimPrefix(trimmed, "export "))
  {
    hide TrimSpace, TrimPrefix, EnvName, Unquoted;
  }

  lemma BlankWhenTrimmed(lead: string, trimmed: string, end: string)
    requires AllSpace(lead) && AllSpace(end) && BareEnds(trimmed)
    ensures Blank(lead + trimmed + end) <==> trimmed == "" || trimmed[0] == '#'
  {
    PlainCodes();
    hide SpaceCode;
    var raw, i := lead + trimmed + end, |lead|;
    if trimmed == "" {
      assert raw == lead + end;
      SpacesConcat(lead, end);
    } else {
      assert raw[i] == trimmed[0] && raw[..i] == lead;
      forall m: nat | m < i ensures SpaceCode(raw[m]) { assert raw[m] == lead[m]; }
      forall j | 0 <= j < |raw| && raw[j] == '#' && AllSpace(raw[..j]) ensures j == i {
        forall m: nat | m < j ensures SpaceCode(raw[m]) { assert raw[..j][m] == raw[m]; }
      }
    }
  }

  // --- Round trip -------------------------------------------------------------------------------

  function EscapeChar(c: char): string {
    match c
    case '\n' => "\\n"
    case '\t' => "\\t"
    case '"' => "\\\""
    case '\\' => "\\\\"
    case other => [other]
  }

  function Escape(v: string): string {
    if v == [] then [] else EscapeChar(v[0]) + Escape(v[1..])
  }

  datatype Binding = Binding(key: string, value: string, exported: bool)

  function PrintLine(b: Binding): string {
    (if b.exported then "export " else "") + b.key + "=\"" + Escape(b.value) + "\""
  }

  function Print(bs: seq<Binding>): string {
    if bs == [] then [] else PrintLine(bs[0]) + "\n" + Print(bs[1..])
  }

  function VarsOf(bs: seq<Binding>): map<string, string> {
    if bs == [] then map[]
    else VarsOf(bs[..|bs| - 1])[bs[|bs| - 1].key := bs[|bs| - 1].value]
  }

  lemma {:induction false} UnescapeEscapeThen(v: string, rest: string)
    ensures Unescape(Escape(v) + rest) == v + Unescape(rest)
  {
    hide Unescape, EscapeChar;
    if v == [] {
      assert Escape(v) + rest == rest;
    } else {
      var more := Escape(v[1..]) + rest;
      UnescapeEscapeThen(v[1..], rest);
      assert Escape(v) + rest == EscapeChar(v[0]) + more;
      EscapedCharReads(v[0], more);
      assert v == [v[0]] + v[1..];
    }
  }

  lemma EscapedCharReads(c: char, more: string)
    ensures Unescape(EscapeChar(c) + more) == [c] + Unescape(more)
  {
    var e := EscapeChar(c);
    assert (e + more)[|e|..] == more;
  }

  // The loop of unquote inverts the escaper on every value.
  lemma {:induction false} UnescapeEscape(v: string)
    ensures Unescape(Escape(v)) == v
  {
    UnescapeEscapeThen(v, []);
    assert Escape(v) + [] == Escape(v);
  }

  lemma {:induction false} EscapeHidesNewlines(v: string)
    ensures '\n' !in Escape(v)
  {
    if v != [] { EscapeHidesNewlines(v[1..]); }
  }

  lemma TrimNothing(s: string)
    requires s != "" && !IsSpace(s[0]) && !IsSpace(s[|s| - 1])
    ensures TrimSpace(s) == s
  {
  }

  lemma QuotedValue(v: string)
    ensures var q := "\"" + Escape(v) + "\""; TrimSpace(q) == q && Unquoted(q) == v
  {
    var q := "\"" + Escape(v) + "\"";
    TrimNothing(q);
    assert q[1..|q| - 1] == Escape(v);
    UnescapeEscape(v);
  }

  lemma EnvNameIsPlain(key: string)
    requires EnvName(key)
    ensures TrimSpace(key) == key && '=' !in key && ' ' !in key && '\n' !in key
  {
    TrimNothing(key);
  }

  lemma FirstAt(s: string, c: char, i: nat)
    requires i < |s| && s[i] == c && forall j :: 0 <= j < i ==> s[j] != c
    ensures IndexOf(s, c) == i
  {
  }

  // The assignment that remains after trimming and dropping "export ".
  function Bare(b: Binding): string {
    b.key + "=\"" + Escape(b.value) + "\""
  }

  lemma NamesNoExport(key: string, rest: string)
    requires EnvName(key)
    ensures !("export " <= key + "=" + rest)
  {
    var line, e := key + "=" + rest, "export ";
    assert e[0] != '=' && e[1] != '=' && e[2] != '=' && e[3] != '=' && e[4] != '=' && e[5] != '=' && e[6] == ' ';
    assert line[|key|] == '=';
    assert |key| >= 7 ==> line[6] == key[6] && key[6] != ' ';
  }

  lemma ExportDropped(b: Binding)
    requires EnvName(b.key)
    ensures TrimPrefix(PrintLine(b), "export ") == Bare(b)
  {
    hide EnvName, Escape;
    var rest := "\"" + Escape(b.value) + "\"";
    assert Bare(b) == b.key + "=" + rest;
    if b.exported {
      assert PrintLine(b) == "export " + Bare(b);
    } else {
      assert PrintLine(b) == Bare(b);
      NamesNoExport(b.key, rest);
    }
  }

  lemma PrintedShape(b: Binding)
    requires EnvName(b.key)
    ensures var line := PrintLine(b);
      line != "" && line[0] != '#' && line[|line| - 1] == '"' && TrimSpace(line) == line && '\n' !in line
  {
    hide Escape;
    EscapeHidesNewlines(b.value);
    EnvNameIsPlain(b.key);
    TrimNothing(PrintLine(b));
  }

  lemma BareSplits(b: Binding)
    requires EnvName(b.key)
    ensures var bare := Bare(b);
      IndexOf(bare, '=') == |b.key| < |bare| && bare[..|b.key|] == b.key
      && bare[|b.key| + 1..] == "\"" + Escape(b.value) + "\""
  {
    hide Escape, EnvName;
    EnvNameIsPlain(b.key);
    FirstAt(Bare(b), '=', |b.key|);
  }

  lemma ReadPrinted(b: Binding)
    requires EnvName(b.key)
    ensures Read(PrintLine(b)) == Assignment(b.key, b.value)
  {
    hide PrintLine, Bare, Escape, EnvName, Unquoted, TrimPrefix, TrimSpace;
    PrintedShape(b);
    ExportDropped(b);
    EnvNameIsPlain(b.key);
    BareSplits(b);
    QuotedValue(b.value);
  }

  function PrintLines(bs: seq<Binding>): (lines: seq<string>)
    ensures |lines| == |bs| && forall i :: 0 <= i < |bs| ==> lines[i] == PrintLine(bs[i])
  {
    if bs == [] then [] else [PrintLine(bs[0])] + PrintLines(bs[1..])
  }

  lemma {:induction false} PrintJoins(bs: seq<Binding>)
    ensures Print(bs) == Join(PrintLines(bs), "\n") + ""
  {
    hide PrintLine;
    if bs != [] {
      PrintJoins(bs[1..]);
      assert PrintLines(bs)[1..] == PrintLines(bs[1..]);
    }
  }

  lemma LinesPrinted(bs: seq<Binding>)
    requires forall b :: b in bs ==> EnvName(b.key)
    ensures Lines(Print(bs)) == PrintLines(bs)
  {
    hide PrintLine, EnvName, TrimSpace, Lines, Join;
    PrintJoins(bs);
    forall l | l in PrintLines(bs) ensures '\n' !in l && l != "" && l[|l| - 1] != '\r' {
      var i :| 0 <= i < |bs| && PrintLines(bs)[i] == l;
      PrintedShape(bs[i]);
    }
    LinesOfJoined(PrintLines(bs), "", "\n");
  }

  lemma {:induction false} VarsPrinted(bs: seq<Binding>, lines: seq<string>)
    requires forall b :: b in bs ==> EnvName(b.key)
    requires |lines| == |bs| && forall i :: 0 <= i < |bs| ==> lines[i] == PrintLine(bs[i])
    ensures Vars(lines) == VarsOf(bs)
    ensures AllReadable(lines)
  {
    hide Read, PrintLine, EnvName;
    if bs != [] {
      var last := |bs| - 1;
      VarsPrinted(bs[..last], lines[..last]);
      ReadPrinted(bs[last]);
    }
  }

  // A repeated name keeps its last value, and no other name appears.
  lemma {:induction false} LastWins(bs: seq<Binding>, i: nat)
    requires i < |bs| && forall j :: i < j < |bs| ==> bs[j].key != bs[i].key
    ensures bs[i].key in VarsOf(bs) && VarsOf(bs)[bs[i].key] == bs[i].value
    ensures forall k :: k in VarsOf(bs) ==> exists b :: b in bs && b.key == k
  {
    NamesBound(bs);
    var last := |bs| - 1;
    if i < last { LastWins(bs[..last], i); }
  }

  lemma {:induction false} NamesBound(bs: seq<Binding>)
    ensures forall k :: k in VarsOf(bs) ==> exists b :: b in bs && b.key == k
  {
    if bs != [] {
      var last := |bs| - 1;
      NamesBound(bs[..last]);
      assert bs == bs[..last] + [bs[last]] && bs[last] in bs;
    }
  }

  /** Round trip: printing any bindings of valid names to any values, in any order, with or without
      "export ", and parsing the text gives those bindings back, a repeated name keeping its last. */
  lemma RoundTrip(bs: seq<Binding>)
    requires forall b :: b in bs ==> EnvName(b.key)
    ensures Vars(Lines(Print(bs))) == VarsOf(bs)
    ensures AllReadable(Lines(Print(bs)))
  {
    LinesPrinted(bs);
    VarsPrinted(bs, Lines(Print(bs)));
  }

  // So any map comes back exactly, in whatever order its entries were printed.
  lemma {:induction false} AnyOrderPrintsTheMap(bs: seq<Binding>, m: map<string, string>)
    requires forall i, j :: 0 <= i < j < |bs| ==> bs[i].key != bs[j].key
    requires forall b :: b in bs ==> b.key in m && m[b.key] == b.value
    requires forall k :: k in m ==> exists b :: b in bs && b.key == k
    ensures VarsOf(bs) == m
  {
    if bs == [] {
      assert m.Keys == {};
    } else {
      var last := |bs| - 1;
      var rest := m - {bs[last].key};
      assert bs == bs[..last] + [bs[last]];
      AnyOrderPrintsTheMap(bs[..last], rest);
      assert bs[last] in bs;
      assert rest[bs[last].key := bs[last].value] == m;
    }
  }

  method ParsePrinted(bs: seq<Binding>, m: map<string, string>) returns (r: Parsed)
    requires forall b :: b in bs ==> EnvName(b.key)
    requires forall i, j :: 0 <= i < j < |bs| ==> bs[i].key != bs[j].key
    requires forall b :: b in bs ==> b.key in m && m[b.key] == b.value
    requires forall k :: k in m ==> exists b :: b in bs && b.key == k
    ensures r == Loaded(m)
  {
    RoundTrip(bs);
    AnyOrderPrintsTheMap(bs, m);
    r := Parse(Print(bs));
  }
}
