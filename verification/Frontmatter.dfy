/** The `---` header of an instruction document, split and printed. */
module Frontmatter {
  import opened Text
  import opened Positional

  // ---- str.splitlines(keepends=True) ---------------------------------------------------------

  /** Everything `splitlines` ends a line at, not only `\n`. */
  predicate IsBreak(c: char) {
    c in "\n\r\U{0B}\U{0C}\U{1C}\U{1D}\U{1E}\U{85}\U{2028}\U{2029}"
  }

  /** Where the first line ends, its break included; `\r\n` is one break. */
  function LineEnd(s: string): (e: nat)
    ensures e <= |s| && (s != "" ==> 0 < e)
  {
    if s == "" then 0
    else if s[0] == '\r' && |s| > 1 && s[1] == '\n' then 2
    else if IsBreak(s[0]) then 1
    else 1 + LineEnd(s[1..])
  }

  function Lines(s: string): seq<string>
    decreases |s|
  {
    if s == "" then [] else [s[..LineEnd(s)]] + Lines(s[LineEnd(s)..])
  }

  /** `line.rstrip("\n")` */
  function Strip(line: string): (r: string)
    ensures |r| <= |line|
    ensures r == line || r == line[..|r|]
  {
    if line != "" && line[|line| - 1] == '\n' then Strip(line[..|line| - 1]) else line
  }

  function Concat(ss: seq<string>): string {
    if ss == [] then "" else ss[0] + Concat(ss[1..])
  }

  // ---- splitting and printing ------------------------------------------------------------------

  datatype Split = Parts(fields: seq<string>, body: string) | Unterminated

  const FENCE: string := "---"
  const OPENING: string := "---\n"

  /** The index of the first line from `i` on that closes the header, or the number of lines. */
  function Closing(lines: seq<string>, i: nat): (e: nat)
    requires i <= |lines|
    ensures i <= e <= |lines|
    ensures forall j :: i <= j < e ==> Strip(lines[j]) != FENCE
    ensures e < |lines| ==> Strip(lines[e]) == FENCE
    decreases |lines| - i
  {
    if i == |lines| || Strip(lines[i]) == FENCE then i else Closing(lines, i + 1)
  }

  function StripAll(lines: seq<string>): (r: seq<string>)
    ensures |r| == |lines|
  {
    seq(|lines|, i requires 0 <= i < |lines| => Strip(lines[i]))
  }

  /** `_split_frontmatter` */
  function SplitText(text: string): Split {
    if !(OPENING <= text) then Parts([], text)
    else
      var lines := Lines(text[|OPENING|..]);
      var end := Closing(lines, 0);
      if end == |lines| then Unterminated else Parts(StripAll(lines[..end]), Concat(lines[end + 1..]))
  }

  /** Each field on a line of its own. */
  function FieldLines(fields: seq<string>): string {
    if fields == [] then "" else fields[0] + "\n" + FieldLines(fields[1..])
  }

  /** The document printed back from its parts; with no fields the header holds one empty line. */
  function Printed(fields: seq<string>, body: string): string {
    OPENING + (if fields == [] then "\n" else FieldLines(fields)) + OPENING + body
  }

  method SplitFrontmatter(text: string) returns (r: Split)
    ensures r == SplitText(text)
  {
    if !(OPENING <= text) { return Parts([], text); }
    var lines := Lines(text);
    OpeningIsALine(text);
    var rest := Lines(text[|OPENING|..]);
    var i := 1;
    while i < |lines|
      invariant 1 <= i <= |lines|
      invariant Closing(rest, i - 1) == Closing(rest, 0)
    {
      if Strip(lines[i]) == FENCE { break; }
      i := i + 1;
    }
    if i == |lines| { return Unterminated; }
    assert lines[1..i] == rest[..i - 1] && lines[i + 1..] == rest[i..];
    return Parts(StripAll(lines[1..i]), Concat(lines[i + 1..]));
  }

  lemma OpeningIsALine(text: string)
    requires OPENING <= text
    ensures Lines(text) == [OPENING] + Lines(text[|OPENING|..])
  {
    assert OPENING == FENCE + "\n";
    assert text == FENCE + "\n" + text[|OPENING|..];
    assert Clean(FENCE);
    FirstLine(FENCE, text[|OPENING|..]);
  }

  // ---- lines ------------------------------------------------------------------------------------

  /** No break inside, except that a field may end in `\r`: with its newline that is one break. */
  predicate Clean(f: string) {
    forall i :: 0 <= i < |f| && IsBreak(f[i]) ==> f[i] == '\r' && i == |f| - 1
  }

  lemma {:induction false} FirstLine(f: string, rest: string)
    requires Clean(f)
    ensures LineEnd(f + "\n" + rest) == |f| + 1
    ensures Lines(f + "\n" + rest) == [f + "\n"] + Lines(rest)
  {
    var s := f + "\n" + rest;
    CleanLineEnd(f, rest);
    assert s[|f|] == '\n';
    assert s[..|f| + 1] == f + "\n";
    assert s[|f| + 1..] == rest;
    assert Lines(s) == [s[..LineEnd(s)]] + Lines(s[LineEnd(s)..]);
  }

  lemma {:induction false} CleanLineEnd(f: string, rest: string)
    requires Clean(f)
    ensures LineEnd(f + "\n" + rest) == |f| + 1
  {
    var s := f + "\n" + rest;
    if f != "" && f[0] != '\r' {
      assert s[1..] == f[1..] + "\n" + rest;
      assert Clean(f[1..]) by {
        forall i | 0 <= i < |f[1..]| && IsBreak(f[1..][i]) ensures f[1..][i] == '\r' && i == |f[1..]| - 1 {
          assert f[1..][i] == f[i + 1];
        }
      }
      CleanLineEnd(f[1..], rest);
    }
  }

  /** A line that ends in a newline holds a clean field before it. */
  lemma {:induction false} NewlineEndsACleanLine(s: string)
    requires s != "" && s[LineEnd(s) - 1] == '\n'
    ensures Clean(s[..LineEnd(s) - 1])
  {
    var e := LineEnd(s);
    if s[0] == '\r' && |s| > 1 && s[1] == '\n' {
      assert s[..1] == "\r";
    } else if !IsBreak(s[0]) {
      assert s[1..] != "";
      NewlineEndsACleanLine(s[1..]);
      forall i | 0 <= i < e - 1 && IsBreak(s[..e - 1][i]) ensures s[i] == '\r' && i == e - 2 {
        assert s[..e - 1][i] == s[1..][..e - 2][i - 1];
      }
    }
  }

  lemma {:induction false} ConcatLines(s: string)
    ensures Concat(Lines(s)) == s
    decreases |s|
  {
    if s != "" {
      ConcatLines(s[LineEnd(s)..]);
      assert s == s[..LineEnd(s)] + s[LineEnd(s)..];
    }
  }

  lemma {:induction false} ConcatSplits(a: seq<string>, b: seq<string>)
    ensures Concat(a + b) == Concat(a) + Concat(b)
  {
    if a == [] {
      assert a + b == b;
    } else {
      assert (a + b)[1..] == a[1..] + b;
      ConcatSplits(a[1..], b);
    }
  }

  predicate EndsInNewline(line: string) { line != "" && line[|line| - 1] == '\n' }

  /** What a line of the text is: its stripped form, with or without one newline; with one it is clean. */
  ghost predicate IsLine(line: string) {
    if EndsInNewline(line) then line == Strip(line) + "\n" && Clean(Strip(line)) else line == Strip(line)
  }

  lemma StripACleanLine(f: string)
    requires Clean(f)
    ensures Strip(f + "\n") == f
  {
    var line := f + "\n";
    assert line[..|line| - 1] == f;
    if f != "" && f[|f| - 1] == '\n' { assert IsBreak(f[|f| - 1]); }
  }

  lemma {:induction false} LinesAreLines(s: string)
    ensures forall j :: 0 <= j < |Lines(s)| ==> IsLine(Lines(s)[j])
    decreases |s|
  {
    if s != "" {
      var e := LineEnd(s);
      LinesAreLines(s[e..]);
      if s[e - 1] == '\n' {
        NewlineEndsACleanLine(s);
        assert s[..e] == s[..e - 1] + "\n";
        StripACleanLine(s[..e - 1]);
      }
    }
  }

  // ---- losslessness ----------------------------------------------------------------------------

  lemma {:induction false} HeaderFits(lines: seq<string>)
    requires forall j :: 0 <= j < |lines| ==> IsLine(lines[j])
    ensures |FieldLines(StripAll(lines))| >= |Concat(lines)|
    ensures |FieldLines(StripAll(lines))| == |Concat(lines)| <==> forall j :: 0 <= j < |lines| ==> EndsInNewline(lines[j])
    ensures |FieldLines(StripAll(lines))| == |Concat(lines)| ==> FieldLines(StripAll(lines)) == Concat(lines)
  {
    if lines != [] {
      HeaderFits(lines[1..]);
      assert StripAll(lines)[1..] == StripAll(lines[1..]);
      assert IsLine(lines[0]);
      assert (forall j :: 0 <= j < |lines| ==> EndsInNewline(lines[j])) <==>
             EndsInNewline(lines[0]) && forall j :: 0 <= j < |lines[1..]| ==> EndsInNewline(lines[1..][j]);
    }
  }

  /** The header has a field, and each of its lines and the closing line end in a newline. */
  predicate NewlineHeader(text: string)
    requires OPENING <= text && SplitText(text).Parts?
  {
    var lines := Lines(text[|OPENING|..]);
    var end := Closing(lines, 0);
    end > 0 && forall j :: 0 <= j <= end ==> EndsInNewline(lines[j])
  }

  lemma Regroup(a: string, b: string, c: string, d: string)
    ensures a + b + c + d == a + (b + (c + d))
  {
  }

  lemma {:induction false} LinesAround(lines: seq<string>, end: nat)
    requires end < |lines|
    ensures Concat(lines) == Concat(lines[..end]) + (lines[end] + Concat(lines[end + 1..]))
  {
    ConcatSplits(lines[..end], lines[end..]);
    assert lines == lines[..end] + lines[end..];
    assert lines[end..][1..] == lines[end + 1..];
  }

  lemma TextIsItsLines(text: string)
    requires OPENING <= text && SplitText(text).Parts?
    ensures var lines := Lines(text[|OPENING|..]);
            var end := Closing(lines, 0);
            text == OPENING + Concat(lines[..end]) + lines[end] + SplitText(text).body
  {
    var lines := Lines(text[|OPENING|..]);
    var end := Closing(lines, 0);
    ConcatLines(text[|OPENING|..]);
    LinesAround(lines, end);
    Regroup(OPENING, Concat(lines[..end]), lines[end], Concat(lines[end + 1..]));
    assert text == OPENING + text[|OPENING|..];
  }

  /** Printing the parts of a header gives the document back exactly when every header line ends in a newline. */
  lemma LosslessExactlyWhen(text: string)
    requires OPENING <= text && SplitText(text).Parts?
    ensures Printed(SplitText(text).fields, SplitText(text).body) == text <==> NewlineHeader(text)
  {
    var lines := Lines(text[|OPENING|..]);
    var end := Closing(lines, 0);
    var (fields, body) := (SplitText(text).fields, SplitText(text).body);
    LinesAreLines(text[|OPENING|..]);
    TextIsItsLines(text);
    HeaderFits(lines[..end]);
    assert fields == StripAll(lines[..end]);
    assert IsLine(lines[end]) && Strip(lines[end]) == FENCE;
    assert |lines[end]| == if EndsInNewline(lines[end]) then 4 else 3;
    var printed := Printed(fields, body);
    var header := if fields == [] then "\n" else FieldLines(fields);
    assert |printed| == 4 + |header| + 4 + |body|;
    assert |text| == 4 + |Concat(lines[..end])| + |lines[end]| + |body|;
    if NewlineHeader(text) {
      assert forall j :: 0 <= j < end ==> lines[..end][j] == lines[j];
      assert header == Concat(lines[..end]) && lines[end] == OPENING;
    } else if printed == text {
      assert end == 0 ==> Concat(lines[..end]) == "";
    }
  }

  // ---- round trip ------------------------------------------------------------------------------

  /** A list of fields the header can hold: each on one line, and none the closing line. */
  predicate Fits(fields: seq<string>) {
    fields != [] && forall i :: 0 <= i < |fields| ==> Clean(fields[i]) && fields[i] != FENCE
  }

  function Newlined(fields: seq<string>): seq<string> {
    seq(|fields|, i requires 0 <= i < |fields| => fields[i] + "\n")
  }

  lemma {:induction false} FieldLinesSplit(fields: seq<string>, rest: string)
    requires forall i :: 0 <= i < |fields| ==> Clean(fields[i])
    ensures Lines(FieldLines(fields) + rest) == Newlined(fields) + Lines(rest)
  {
    if fields == [] {
      assert FieldLines(fields) + rest == rest;
      assert Newlined(fields) + Lines(rest) == Lines(rest);
    } else {
      FieldLinesSplit(fields[1..], rest);
      assert FieldLines(fields) + rest == fields[0] + "\n" + (FieldLines(fields[1..]) + rest);
      FirstLine(fields[0], FieldLines(fields[1..]) + rest);
      assert Newlined(fields) == [fields[0] + "\n"] + Newlined(fields[1..]);
    }
  }

  lemma {:induction false} ClosingSkips(lines: seq<string>, i: nat, k: nat)
    requires i <= k < |lines| && Strip(lines[k]) == FENCE
    requires forall j :: i <= j < k ==> Strip(lines[j]) != FENCE
    ensures Closing(lines, i) == k
    decreases k - i
  {
    if i < k { ClosingSkips(lines, i + 1, k); }
  }

  /** A header of fitting fields ends at the first closing line. */
  lemma HeaderEndsAtTheFence(fields: seq<string>, after: string, closing: string, rest: seq<string>)
    requires Fits(fields) && Strip(closing) == FENCE
    requires Lines(after) == Newlined(fields) + ([closing] + rest)
    ensures SplitText(OPENING + after) == Parts(fields, Concat(rest))
  {
    var lines := Lines(after);
    var n := |fields|;
    assert (OPENING + after)[|OPENING|..] == after;
    forall j | 0 <= j < n ensures Strip(lines[j]) == fields[j] {
      StripACleanLine(fields[j]);
      assert lines[j] == Newlined(fields)[j];
    }
    assert lines[n] == closing;
    ClosingSkips(lines, 0, n);
    assert StripAll(lines[..n]) == fields;
    assert lines[n + 1..] == rest;
  }

  lemma PrintedPartsReturn(fields: seq<string>, body: string)
    requires Fits(fields)
    ensures SplitText(Printed(fields, body)) == Parts(fields, body)
  {
    FieldLinesSplit(fields, OPENING + body);
    OpeningIsALine(OPENING + body);
    assert (OPENING + body)[|OPENING|..] == body;
    StripACleanLine(FENCE);
    assert OPENING == FENCE + "\n";
    HeaderEndsAtTheFence(fields, FieldLines(fields) + (OPENING + body), OPENING, Lines(body));
    Regroup(OPENING, FieldLines(fields), OPENING, body);
    ConcatLines(body);
  }

  lemma FenceIsALine()
    ensures Lines(FENCE) == [FENCE]
  {
    assert FENCE[1..][1..][1..] == "";
    assert LineEnd(FENCE) == 3;
    assert FENCE[..3] == FENCE && FENCE[3..] == "";
  }

  /** A closing line without its newline is read as one, and printed back with one. */
  lemma AnUnendedFenceIsNotPrintedBack(fields: seq<string>)
    requires Fits(fields)
    ensures var text := OPENING + FieldLines(fields) + FENCE;
            SplitText(text) == Parts(fields, "") && Printed(fields, "") != text
  {
    FieldLinesSplit(fields, FENCE);
    FenceIsALine();
    assert [FENCE] + [] == [FENCE];
    HeaderEndsAtTheFence(fields, FieldLines(fields) + FENCE, FENCE, []);
    Regroup(OPENING, FieldLines(fields), FENCE, "");
    assert OPENING + (FieldLines(fields) + FENCE) == OPENING + FieldLines(fields) + FENCE;
    assert |Printed(fields, "")| == |OPENING + FieldLines(fields) + FENCE| + 1;
  }

  /** Splitting a printed document returns its parts exactly when the fields fit in a header. */
  lemma PrintedPartsReturnExactlyWhen(fields: seq<string>, body: string)
    ensures SplitText(Printed(fields, body)) == Parts(fields, body) <==> Fits(fields)
  {
    if Fits(fields) {
      PrintedPartsReturn(fields, body);
    } else if SplitText(Printed(fields, body)) == Parts(fields, body) {
      var text := Printed(fields, body);
      assert OPENING <= text;
      LosslessExactlyWhen(text);
      var lines := Lines(text[|OPENING|..]);
      var end := Closing(lines, 0);
      LinesAreLines(text[|OPENING|..]);
      assert fields == StripAll(lines[..end]);
      forall i | 0 <= i < |fields| ensures Clean(fields[i]) && fields[i] != FENCE {
        assert IsLine(lines[i]) && EndsInNewline(lines[i]);
      }
      assert false;
    }
  }

  // ---- rendering for the other platform ----------------------------------------------------------

  /** `_scalar` */
  function Scalar(fields: seq<string>, key: string): Option<string> {
    if fields == [] then None
    else if fields[0] == key + ":" then Some("")
    else if key + ": " <= fields[0] && !(" " <= fields[0]) then Some(fields[0][|key| + 2..])
    else Scalar(fields[1..], key)
  }

  /** The characters `str.splitlines` breaks at, by their code points. */
  lemma BreaksAreThese(c: char)
    ensures IsBreak(c) <==> 10 <= c as int <= 13 || 28 <= c as int <= 30 || c as int == 133 || c as int == 8232 || c as int == 8233
  {
  }

  /** A line ends right after its first break, where `\r\n` is one break and `\r` before anything else is
      one too; text without a break is one line. */
  lemma {:induction false} LineEndsAfterItsBreak(t: string, c: char, rest: string)
    requires forall i :: 0 <= i < |t| ==> !IsBreak(t[i])
    requires IsBreak(c)
    ensures LineEnd(t) == |t|
    ensures LineEnd(t + [c] + rest) == |t| + if c == '\r' && rest != "" && rest[0] == '\n' then 2 else 1
  {
    var s := t + [c] + rest;
    if t == "" {
      assert s == [c] + rest;
    } else {
      assert s[0] == t[0] && IsBreak('\r');
      assert s[1..] == t[1..] + [c] + rest;
      LineEndsAfterItsBreak(t[1..], c, rest);
    }
  }

  /** The line gives the key this value: `key: value`, or `key:` and nothing. */
  predicate GivesTheKey(line: string, key: string, value: string) {
    (line == key + ":" && value == "") || (line == key + ": " + value && !(" " <= line))
  }

  /** The value comes from the first line that gives the key one; None when no line does. */
  lemma {:induction false} ScalarIsTheFirst(fields: seq<string>, key: string)
    ensures match Scalar(fields, key)
            case None => forall i, value :: 0 <= i < |fields| ==> !GivesTheKey(fields[i], key, value)
            case Some(v) => exists n :: 0 <= n < |fields| && GivesTheKey(fields[n], key, v)
                              && forall i, value :: 0 <= i < n ==> !GivesTheKey(fields[i], key, value)
  {
    if fields != [] {
      LineGivesTheKey(fields[0], key);
      ScalarIsTheFirst(fields[1..], key);
      match Scalar(fields[1..], key)
      case None =>
        forall i, value | 0 <= i < |fields| && Scalar(fields, key) == None ensures !GivesTheKey(fields[i], key, value) {
          if i > 0 { assert fields[i] == fields[1..][i - 1]; }
        }
      case Some(v) =>
        var n :| 0 <= n < |fields[1..]| && GivesTheKey(fields[1..][n], key, v)
                 && forall i, value :: 0 <= i < n ==> !GivesTheKey(fields[1..][i], key, value);
        if Scalar(fields, key) == Scalar(fields[1..], key) && !(exists value :: GivesTheKey(fields[0], key, value)) {
          assert GivesTheKey(fields[n + 1], key, v);
          forall i, value | 0 <= i < n + 1 ensures !GivesTheKey(fields[i], key, value) {
            if i > 0 { assert fields[i] == fields[1..][i - 1]; }
          }
        }
    }
  }

  lemma LineGivesTheKey(line: string, key: string)
    ensures line == key + ":" ==> GivesTheKey(line, key, "")
    ensures key + ": " <= line && !(" " <= line) ==> GivesTheKey(line, key, line[|key| + 2..])
    ensures forall value :: GivesTheKey(line, key, value) ==> line == key + ":" || (key + ": " <= line && !(" " <= line))
  {
    if key + ": " <= line { assert line == key + ": " + line[|key| + 2..]; }
  }

  /** `_render_claude_agent`; None is the failed assertion. */
  function RenderAgent(name: string, fields: seq<string>, body: string): Option<string> {
    match Scalar(fields, "description")
    case None => None
    case Some(d) => Some("---\n" + ("name: " + name + "\n" + ("description: " + d + "\n")) + "---\n" + body)
  }

  /** `_render_claude_command` */
  function RenderCommand(fields: seq<string>, body: string): Option<string> {
    match Scalar(fields, "description")
    case None => None
    case Some(d) => Some("---\ndescription: " + d + "\n---\n" + Reindex(body))
  }

  lemma CleanAfter(prefix: string, f: string)
    requires f != "" || '\r' !in prefix
    requires forall i :: 0 <= i < |prefix| ==> !IsBreak(prefix[i])
    ensures Clean(prefix + f) <==> Clean(f)
  {
    if Clean(f) {
      forall i | 0 <= i < |prefix + f| && IsBreak((prefix + f)[i])
        ensures (prefix + f)[i] == '\r' && i == |prefix + f| - 1
      {
        assert |prefix| <= i && (prefix + f)[i] == f[i - |prefix|];
      }
    }
    if Clean(prefix + f) {
      forall i | 0 <= i < |f| && IsBreak(f[i]) ensures f[i] == '\r' && i == |f| - 1 {
        assert (prefix + f)[|prefix| + i] == f[i];
      }
    }
  }

  lemma PrintedOne(f: string, body: string)
    ensures Printed([f], body) == OPENING + (f + "\n") + OPENING + body
  {
    assert [f][1..] == [];
    assert FieldLines([f]) == f + "\n";
  }

  lemma PrintedTwo(f: string, g: string, body: string)
    ensures Printed([f, g], body) == OPENING + (f + "\n" + (g + "\n")) + OPENING + body
  {
    assert [f, g][1..] == [g] && [g][1..] == [];
    assert FieldLines([g]) == g + "\n";
  }

  lemma RenderedAgentIsPrinted(name: string, d: string, body: string)
    ensures "---\n" + ("name: " + name + "\n" + ("description: " + d + "\n")) + "---\n" + body
            == Printed(["name: " + name, "description: " + d], body)
  {
    PrintedTwo("name: " + name, "description: " + d, body);
  }

  lemma RenderedCommandIsPrinted(d: string, body: string)
    ensures "---\ndescription: " + d + "\n---\n" + body == Printed(["description: " + d], body)
  {
    PrintedOne("description: " + d, body);
  }

  lemma DescriptionFits(d: string)
    ensures Clean("description: " + d) <==> Clean(d)
    ensures "description: " + d != FENCE
  {
    CleanAfter("description: ", d);
    assert ("description: " + d)[0] == 'd';
  }

  lemma NameFits(name: string)
    ensures Clean("name: " + name) <==> Clean(name)
    ensures "name: " + name != FENCE
  {
    CleanAfter("name: ", name);
    assert ("name: " + name)[0] == 'n';
  }

  lemma TwoFit(f: string, g: string)
    requires f != FENCE && g != FENCE
    ensures Fits([f, g]) <==> Clean(f) && Clean(g)
  {
    assert [f, g][0] == f && [f, g][1] == g;
  }

  /** A rendered agent holds its name and description and nothing else, and its body is untouched,
      exactly when both values stay on one line. */
  lemma RenderedAgentKeepsExactly(name: string, fields: seq<string>, body: string)
    requires RenderAgent(name, fields, body).Some?
    ensures var d := Scalar(fields, "description").value;
            SplitText(RenderAgent(name, fields, body).value) == Parts(["name: " + name, "description: " + d], body)
            <==> Clean(name) && Clean(d)
  {
    var d := Scalar(fields, "description").value;
    RenderedAgentIsPrinted(name, d, body);
    var f, g := "name: " + name, "description: " + d;
    PrintedPartsReturnExactlyWhen([f, g], body);
    NameFits(name);
    DescriptionFits(d);
    TwoFit(f, g);
  }

  lemma BrokenFieldIsTwoLines(f: string, rest: string)
    requires f != ""
    ensures var lines := Lines(f + "\n" + rest);
            lines[0] == f ==> |lines| > 1 && lines[1] == "\n"
  {
    var after := f + "\n" + rest;
    var e := LineEnd(after);
    if Lines(after)[0] == f {
      assert after[e..][0] == '\n';
      assert after[e..][..1] == "\n";
    }
  }

  lemma OnlyACleanFieldComesBackAlone(f: string, rest: string)
    requires f != ""
    requires SplitText(OPENING + (f + "\n" + rest)).Parts? && SplitText(OPENING + (f + "\n" + rest)).fields == [f]
    ensures Clean(f)
  {
    var after := f + "\n" + rest;
    assert (OPENING + after)[|OPENING|..] == after;
    var lines := Lines(after);
    LinesAreLines(after);
    var end := Closing(lines, 0);
    assert |StripAll(lines[..end])| == end;
    assert end == 1 && Strip(lines[1]) == FENCE;
    assert Strip(lines[0]) == StripAll(lines[..end])[0];
    BrokenFieldIsTwoLines(f, rest);
  }

  /** A rendered command holds its description and nothing else, and shifting its body up gives the
      source body back, exactly when the description stays on one line and the body never says `$0`. */
  lemma RenderedCommandReturnsExactly(fields: seq<string>, body: string)
    requires RenderCommand(fields, body).Some?
    ensures var d := Scalar(fields, "description").value;
            var split := SplitText(RenderCommand(fields, body).value);
            split.Parts? && split.fields == ["description: " + d] && ShiftUp(split.body) == body
            <==> Clean(d) && !HasDollarZero(body)
  {
    var d := Scalar(fields, "description").value;
    RenderedCommandIsPrinted(d, Reindex(body));
    DescriptionFits(d);
    CommandSplits("description: " + d, Reindex(body));
    RoundTripExactlyWithoutDollarZero(body);
  }

  lemma CommandSplits(f: string, body: string)
    requires f != FENCE && f != ""
    ensures var split := SplitText(Printed([f], body));
            && (Clean(f) ==> split == Parts([f], body))
            && (split.Parts? && split.fields == [f] ==> Clean(f))
  {
    if Clean(f) {
      PrintedPartsReturn([f], body);
    } else {
      PrintedOne(f, body);
      Regroup(OPENING, f + "\n", OPENING, body);
      var split := SplitText(Printed([f], body));
      if split.Parts? && split.fields == [f] { OnlyACleanFieldComesBackAlone(f, OPENING + body); }
    }
  }
}
