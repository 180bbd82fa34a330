/** Writing a token into the agent's YAML file by rewriting one line of it. */
module TokenEditor {
  import opened Common
  import opened Text

  // ----- Lines -----

  /** What `str.splitlines` breaks at. */
  predicate IsBreak(c: char) {
    || '\n' <= c <= '\r'
    || '\U{001C}' <= c <= '\U{001E}'
    || c == '\U{0085}' || c == '\U{2028}' || c == '\U{2029}'
  }

  predicate Unbroken(s: string) {
    forall i :: 0 <= i < |s| ==> !IsBreak(s[i])
  }

  function BodyLength(t: string): (n: nat)
    ensures n <= |t| && Unbroken(t[..n]) && (n < |t| ==> IsBreak(t[n]))
  {
    if t == "" || IsBreak(t[0]) then 0
    else
      var n := 1 + BodyLength(t[1..]);
      assert t[..n] == [t[0]] + t[1..][..n - 1];
      n
  }

  lemma BodyLengthIs(t: string, n: nat)
    requires n <= |t| && Unbroken(t[..n]) && (n < |t| ==> IsBreak(t[n]))
    ensures BodyLength(t) == n
  {
    var m := BodyLength(t);
    assert forall i :: 0 <= i < n ==> t[..n][i] == t[i];
    assert forall i :: 0 <= i < m ==> t[..m][i] == t[i];
  }

  /** Where the first line ends, its terminator included; CR LF is one terminator. */
  function LineEnd(t: string): (n: nat)
    requires t != ""
    ensures 0 < n <= |t|
  {
    var b := BodyLength(t);
    if b == |t| then b
    else if t[b] == '\r' && b + 1 < |t| && t[b + 1] == '\n' then b + 2
    else b + 1
  }

  function SplitLines(t: string): seq<string>
    decreases |t|
  {
    if t == "" then [] else [t[..LineEnd(t)]] + SplitLines(t[LineEnd(t)..])
  }

  function Concat(lines: seq<string>): string {
    if lines == [] then "" else lines[0] + Concat(lines[1..])
  }

  predicate IsLine(l: string) {
    l != "" && LineEnd(l) == |l|
  }

  function Terminator(l: string): string {
    l[BodyLength(l)..]
  }

  /** A line that may stand before `next`. */
  predicate Follows(l: string, next: string) {
    && Terminator(l) != ""
    && !(l[|l| - 1] == '\r' && next != "" && next[0] == '\n')
  }

  predicate Proper(lines: seq<string>) {
    && (forall i :: 0 <= i < |lines| ==> IsLine(lines[i]))
    && forall i :: 0 <= i < |lines| - 1 ==> Follows(lines[i], lines[i + 1])
  }

  lemma Rejoins(t: string, n: nat, rest: seq<string>)
    requires n <= |t| && Concat(rest) == t[n..]
    ensures Concat([t[..n]] + rest) == t
  {
    assert ([t[..n]] + rest)[1..] == rest;
  }

  lemma {:induction false} ConcatInvertsSplit(t: string)
    ensures Concat(SplitLines(t)) == t
    decreases |t|
  {
    if t == "" {
    } else {
      ConcatInvertsSplit(t[LineEnd(t)..]);
      Rejoins(t, LineEnd(t), SplitLines(t[LineEnd(t)..]));
    }
  }

  lemma FirstLineIsLine(t: string)
    requires t != ""
    ensures var l, rest := t[..LineEnd(t)], t[LineEnd(t)..];
            IsLine(l) && (rest != "" ==> Follows(l, rest))
  {
    var b := BodyLength(t);
    var l := t[..LineEnd(t)];
    assert l[..b] == t[..b];
    BodyLengthIs(l, b);
  }

  lemma {:induction false} SplitIsProper(t: string)
    ensures Proper(SplitLines(t))
    decreases |t|
  {
    if t == "" {
    } else {
      var l, rest := t[..LineEnd(t)], t[LineEnd(t)..];
      var lines, more := SplitLines(t), SplitLines(rest);
      FirstLineIsLine(t);
      SplitIsProper(rest);
      assert forall i :: 0 < i < |lines| ==> lines[i] == more[i - 1];
      if rest != "" {
        assert lines[1][0] == rest[0];
      }
    }
  }

  lemma LineEndAfter(l: string, rest: string)
    requires IsLine(l) && (rest != "" ==> Follows(l, rest))
    ensures LineEnd(l + rest) == |l|
  {
    var b := BodyLength(l);
    assert (l + rest)[..b] == l[..b];
    if rest == "" {
      assert l + rest == l;
    } else {
      BodyLengthIs(l + rest, b);
    }
  }

  lemma {:induction false} SplitInvertsConcat(lines: seq<string>)
    requires Proper(lines)
    ensures SplitLines(Concat(lines)) == lines
  {
    if lines == [] {
    } else {
      var l, rest := lines[0], Concat(lines[1..]);
      SplitInvertsConcat(lines[1..]);
      if |lines| > 1 {
        assert rest[0] == lines[1][0];
        assert Follows(l, rest);
      }
      LineEndAfter(l, rest);
      assert (l + rest)[..|l|] == l && (l + rest)[|l|..] == rest;
    }
  }

  // ----- What the editor sees of a line -----

  /** `line.rstrip("\r\n")`. */
  function Stripped(l: string): string {
    if l != "" && (l[|l| - 1] == '\r' || l[|l| - 1] == '\n') then Stripped(l[..|l| - 1]) else l
  }

  function Content(l: string): string {
    LStrip(Stripped(l))
  }

  function Leading(l: string): int {
    |Stripped(l)| - |Content(l)|
  }

  /** A line that is blank or a comment, a top-level key, or something indented. */
  datatype Shape = Skipped | Top(key: string) | Nested(indent: int, key: string)

  function KeyOf(l: string): string {
    Strip(Before(Content(l), ':'))
  }

  function ShapeOf(l: string): Shape {
    if Strip(Stripped(l)) == "" || (Content(l) != "" && Content(l)[0] == '#') then Skipped
    else if Leading(l) == 0 then Top(KeyOf(l))
    else Nested(Leading(l), KeyOf(l))
  }

  function Shapes(lines: seq<string>): seq<Shape> {
    seq(|lines|, i requires 0 <= i < |lines| => ShapeOf(lines[i]))
  }

  // ----- Which line is the token's -----

  /** The last top-level line before `i`, or -1. */
  function LastTop(shapes: seq<Shape>, i: nat): (h: int)
    requires i <= |shapes|
    ensures -1 <= h < i && (h >= 0 ==> shapes[h].Top?)
    ensures forall j :: h < j < i ==> !shapes[j].Top?
  {
    if i == 0 then -1 else if shapes[i - 1].Top? then i - 1 else LastTop(shapes, i - 1)
  }

  /** The first nested line from `i` on, or the number of lines. */
  function FirstNested(shapes: seq<Shape>, i: nat): (f: nat)
    requires i <= |shapes|
    ensures i <= f <= |shapes| && (f < |shapes| ==> shapes[f].Nested?)
    ensures forall j :: i <= j < f ==> !shapes[j].Nested?
    decreases |shapes| - i
  {
    if i == |shapes| || shapes[i].Nested? then i else FirstNested(shapes, i + 1)
  }

  /** A `token` line directly under the top-level `agent` key: at the indent of its first child. */
  predicate TokenLine(shapes: seq<Shape>, i: nat)
    requires i < |shapes|
  {
    && shapes[i].Nested? && shapes[i].key == "token"
    && var h := LastTop(shapes, i);
       && h >= 0 && shapes[h].key == "agent"
       && shapes[i].indent == shapes[FirstNested(shapes, h + 1)].indent
  }

  /** The first of them. */
  predicate Target(shapes: seq<Shape>, i: nat) {
    && i < |shapes| && TokenLine(shapes, i)
    && forall j :: 0 <= j < i ==> !TokenLine(shapes, j)
  }

  // ----- The rewritten line -----

  function CommentSuffix(l: string): string {
    var afterColon := After(Content(l), ':');
    if '#' in afterColon then "  #" + After(afterColon, '#') else ""
  }

  function NewlineOf(l: string): string {
    if |l| >= 2 && l[|l| - 2..] == "\r\n" then "\r\n"
    else if l != "" && l[|l| - 1] == '\n' then "\n"
    else ""
  }

  function Spaces(n: int): (s: string)
    ensures n >= 0 ==> |s| == n
    ensures forall i :: 0 <= i < |s| ==> s[i] == ' '
  {
    seq(if n >= 0 then n else 0, _ => ' ')
  }

  const TOKEN_KEY := "token"

  function Quoted(token: string): string {
    " \"" + token + "\""
  }

  /** `token: "..."` and the comment. */
  function Assignment(token: string, suffix: string): string {
    TOKEN_KEY + [':'] + (Quoted(token) + suffix)
  }

  /** The new line without its terminator. */
  function NewBody(l: string, token: string): string {
    Spaces(Leading(l)) + Assignment(token, CommentSuffix(l))
  }

  function NewLine(l: string, token: string): string {
    NewBody(l, token) + NewlineOf(l)
  }

  function Rewritten(lines: seq<string>, i: nat, token: string): string
    requires i < |lines|
  {
    Concat(lines[i := NewLine(lines[i], token)])
  }

  // ----- The editor -----

  datatype Scan = Scan(inAgent: bool, blockIndent: Option<int>)

  /** The loop's two variables before and after a line. */
  function Step(s: Scan, shape: Shape): Scan {
    match shape
    case Skipped => s
    case Top(key) => Scan(key == "agent", None)
    case Nested(indent, _) =>
      if s.inAgent && s.blockIndent.None? then Scan(true, Some(indent)) else s
  }

  function ScanTo(shapes: seq<Shape>, i: nat): Scan
    requires i <= |shapes|
  {
    if i == 0 then Scan(false, None) else Step(ScanTo(shapes, i - 1), shapes[i - 1])
  }

  /** The line at which the loop stops. */
  predicate Stops(s: Scan, shape: Shape) {
    && s.inAgent && shape.Nested? && shape.key == "token"
    && (s.blockIndent.None? || s.blockIndent.value == shape.indent)
  }

  predicate Hit(shapes: seq<Shape>, i: nat)
    requires i < |shapes|
  {
    Stops(ScanTo(shapes, i), shapes[i])
  }

  predicate NoHitBefore(shapes: seq<Shape>, i: nat)
    requires i <= |shapes|
  {
    i == 0 || (!Hit(shapes, i - 1) && NoHitBefore(shapes, i - 1))
  }

  lemma {:induction false} NoHitMeans(shapes: seq<Shape>, i: nat)
    requires i <= |shapes| && NoHitBefore(shapes, i)
    ensures forall j :: 0 <= j < i ==> !Hit(shapes, j)
  {
    if i == 0 {
    } else {
      NoHitMeans(shapes, i - 1);
    }
  }

  lemma {:induction false} ScanMeans(shapes: seq<Shape>, i: nat)
    requires i <= |shapes|
    ensures var s, h := ScanTo(shapes, i), LastTop(shapes, i);
            && (s.inAgent <==> h >= 0 && shapes[h].key == "agent")
            && (s.inAgent ==>
                  var f := FirstNested(shapes, h + 1);
                  if s.blockIndent.None? then f >= i else f < i && s.blockIndent.value == shapes[f].indent)
            && (!s.inAgent ==> s.blockIndent == None)
  {
    if i == 0 {
    } else {
      ScanMeans(shapes, i - 1);
    }
  }

  lemma HitIsTokenLine(shapes: seq<Shape>, i: nat)
    requires i < |shapes|
    ensures Hit(shapes, i) <==> TokenLine(shapes, i)
  {
    ScanMeans(shapes, i);
    ScanMeans(shapes, i + 1);
  }

  lemma FirstHitIsTarget(shapes: seq<Shape>, i: nat)
    requires i < |shapes| && Hit(shapes, i) && NoHitBefore(shapes, i)
    ensures Target(shapes, i)
  {
    NoHitMeans(shapes, i);
    forall j | 0 <= j <= i ensures Hit(shapes, j) <==> TokenLine(shapes, j) {
      HitIsTokenLine(shapes, j);
    }
  }

  /** The tail of the loop body: comment and terminator kept, indentation rewritten as spaces. */
  method RewriteLine(line: string, token: string) returns (written: string)
    ensures written == NewLine(line, token)
  {
    var strippedNewline := Stripped(line);
    var content := LStrip(strippedNewline);
    var leading := |strippedNewline| - |content|;
    var afterColon := After(content, ':');
    var commentSuffix := "";
    if '#' in afterColon {
      commentSuffix := "  #" + After(afterColon, '#');
    }
    var newline := "";
    if |line| >= 2 && line[|line| - 2..] == "\r\n" {
      newline := "\r\n";
    } else if line != "" && line[|line| - 1] == '\n' {
      newline := "\n";
    }
    written := Spaces(leading) + Assignment(token, commentSuffix) + newline;
  }

  /** The part of the loop body that looks at one line alone. */
  method Classify(line: string) returns (shape: Shape)
    ensures shape == ShapeOf(line)
  {
    var strippedNewline := Stripped(line);
    if Strip(strippedNewline) == "" {
      return Skipped;
    }
    var content := LStrip(strippedNewline);
    var leading := |strippedNewline| - |content|;
    if content != "" && content[0] == '#' {
      return Skipped;
    }
    var key := Strip(Before(content, ':'));
    shape := if leading == 0 then Top(key) else Nested(leading, key);
  }

  /** The loop body on the shape of a line: the new values of its two variables, and whether this is the line. */
  method ScanLine(inAgent: bool, blockIndent: Option<int>, shape: Shape)
    returns (inside: bool, indent: Option<int>, hit: bool)
    ensures Scan(inside, indent) == Step(Scan(inAgent, blockIndent), shape)
    ensures hit <==> Stops(Scan(inAgent, blockIndent), shape)
  {
    inside, indent, hit := inAgent, blockIndent, false;
    match shape {
      case Skipped =>
      case Top(key) =>
        inside := key == "agent";
        indent := None;
      case Nested(leading, key) =>
        if inAgent {
          if indent.None? {
            indent := Some(leading);
          }
          hit := leading == indent.value && key == "token";
        }
    }
  }

  method ClassifyAt(lines: seq<string>, i: nat, ghost shapes: seq<Shape>) returns (shape: Shape)
    requires i < |lines| && shapes == Shapes(lines)
    ensures i < |shapes| && shape == shapes[i]
  {
    shape := Classify(lines[i]);
  }

  /** The loop up to the line it rewrites. */
  method FindTokenLine(lines: seq<string>, ghost shapes: seq<Shape>) returns (r: Option<nat>)
    requires shapes == Shapes(lines) && |shapes| == |lines|
    ensures r.None? ==> NoHitBefore(shapes, |shapes|)
    ensures r.Some? ==> r.value < |shapes| && Hit(shapes, r.value) && NoHitBefore(shapes, r.value)
  {
    var inAgent := false;
    var blockIndent: Option<int> := None;
    for i := 0 to |lines|
      invariant Scan(inAgent, blockIndent) == ScanTo(shapes, i)
      invariant NoHitBefore(shapes, i)
    {
      var shape := ClassifyAt(lines, i, shapes);
      var hit;
      inAgent, blockIndent, hit := ScanLine(inAgent, blockIndent, shape);
      assert Scan(inAgent, blockIndent) == ScanTo(shapes, i + 1);
      assert hit <==> Hit(shapes, i);
      if hit {
        return Some(i);
      }
    }
    r := None;
  }

  method ReplaceTokenInYamlText(text: string, token: string) returns (r: Option<string>)
    ensures r.None? ==> forall i :: 0 <= i < |SplitLines(text)| ==> !TokenLine(Shapes(SplitLines(text)), i)
    ensures r.Some? ==>
              exists i :: Target(Shapes(SplitLines(text)), i) && r.value == Rewritten(SplitLines(text), i, token)
  {
    var lines := SplitLines(text);
    ghost var shapes := Shapes(lines);
    var found := FindTokenLine(lines, shapes);
    if found.None? {
      NoHitMeans(shapes, |shapes|);
      forall i | 0 <= i < |lines| ensures !TokenLine(shapes, i) {
        HitIsTokenLine(shapes, i);
      }
      return None;
    }
    FirstHitIsTarget(shapes, found.value);
    var written := RewriteLine(lines[found.value], token);
    r := Some(Concat(lines[found.value := written]));
  }

  // ----- The lines it sees -----

  /** A key with its colon is a top-level key or, behind white space, a nested one at that depth. */
  lemma KeyLineIs(indent: string, key: string, rest: string, newline: string)
    requires AllSpace(indent) && key != "" && Trimmed(key) && key[0] != '#' && ':' !in key
    requires newline == "" || newline == ['\n'] || newline == ['\r', '\n']
    requires var last := (key + [':'] + rest)[|key| + |rest|]; last != '\r' && last != '\n'
    ensures ShapeOf(indent + (key + [':'] + rest) + newline)
         == if indent == "" then Top(key) else Nested(|indent|, key)
  {
    var content := key + [':'] + rest;
    LineIsRead(indent, content, newline);
    NonBlank(indent + content + newline);
    PartitionAt(key, ':', rest);
    TrimmedStrip(key);
  }

  /** Comments and blank lines are skipped, whatever their depth. */
  lemma CommentLineIs(indent: string, text: string, newline: string)
    requires AllSpace(indent)
    requires newline == "" || newline == ['\n'] || newline == ['\r', '\n']
    requires var last := (['#'] + text)[|text|]; last != '\r' && last != '\n'
    ensures ShapeOf(indent + (['#'] + text) + newline) == Skipped
  {
    LineIsRead(indent, ['#'] + text, newline);
  }

  lemma BlankLineIs(l: string)
    requires AllSpace(l)
    ensures ShapeOf(l) == Skipped
  {
    StrippedStaysSpace(l);
    StripCuts(Stripped(l));
  }

  lemma {:induction false} StrippedStaysSpace(l: string)
    requires AllSpace(l)
    ensures AllSpace(Stripped(l))
  {
    if l != "" {
      StrippedStaysSpace(l[..|l| - 1]);
    }
  }

  // ----- The line it writes -----

  lemma StrippedOff(b: string, c: char)
    requires c == '\r' || c == '\n'
    ensures Stripped(b + [c]) == Stripped(b)
  {
    assert (b + [c])[..|b|] == b;
  }

  lemma TerminatorStrips(b: string, newline: string)
    requires b != "" && b[|b| - 1] != '\r' && b[|b| - 1] != '\n'
    requires newline == "" || newline == ['\n'] || newline == ['\r', '\n']
    ensures Stripped(b + newline) == b && NewlineOf(b + newline) == newline
  {
    var l := b + newline;
    if newline == "" {
      assert l == b;
    } else if newline == ['\n'] {
      StrippedOff(b, '\n');
    } else {
      assert l == b + ['\r'] + ['\n'] && l[|l| - 2..] == newline;
      StrippedOff(b + ['\r'], '\n');
      StrippedOff(b, '\r');
    }
  }

  lemma CommentIsKept(l: string, key: string, value: string, comment: string)
    requires Content(l) == key + [':'] + (value + comment)
    requires ':' !in key && '#' !in value && (comment == "" || comment[0] == '#')
    ensures CommentSuffix(l) == if comment == "" then "" else [' ', ' '] + comment
  {
    PartitionAt(key, ':', value + comment);
    if comment == "" {
      assert value + comment == value;
    } else {
      SplitComment(value, comment);
      CommentIsFound(value, comment[1..]);
    }
  }

  lemma SplitComment(value: string, comment: string)
    requires comment != "" && comment[0] == '#'
    ensures value + comment == value + ['#'] + comment[1..]
    ensures [' ', ' '] + comment == [' ', ' ', '#'] + comment[1..]
  {
  }

  lemma CommentIsFound(value: string, text: string)
    requires '#' !in value
    ensures var after := value + ['#'] + text;
            '#' in after && "  #" + After(after, '#') == [' ', ' ', '#'] + text
  {
    PartitionAt(value, '#', text);
    assert (value + ['#'] + text)[|value|] == '#';
  }

  /** A line of white space, a key, a value and perhaps a comment, ending in LF, CR LF or nothing, becomes as many
      spaces, the key `token` with the token between quotes, the same comment two spaces on, and the same end. */
  lemma WrittenLineIs(indent: string, key: string, value: string, comment: string, newline: string, token: string)
    requires AllSpace(indent) && key != "" && !IsSpace(key[0]) && ':' !in key && '#' !in value
    requires comment == "" || comment[0] == '#'
    requires newline == "" || newline == ['\n'] || newline == ['\r', '\n']
    requires var last := (key + [':'] + (value + comment))[|key| + |value| + |comment|]; last != '\r' && last != '\n'
    ensures NewLine(indent + (key + [':'] + (value + comment)) + newline, token)
         == seq(|indent|, _ => ' ') + ("token" + [':', ' ', '"'] + token + ['"'])
            + (if comment == "" then "" else [' ', ' '] + comment) + newline
  {
    var content := key + [':'] + (value + comment);
    var l := indent + content + newline;
    LineIsRead(indent, content, newline);
    CommentIsKept(l, key, value, comment);
    AssignmentIs(token, CommentSuffix(l));
    PartsJoin(Spaces(|indent|), "token" + [':', ' ', '"'] + token + ['"'], CommentSuffix(l), newline);
  }

  lemma LineIsRead(indent: string, content: string, newline: string)
    requires AllSpace(indent) && content != "" && !IsSpace(content[0])
    requires content[|content| - 1] != '\r' && content[|content| - 1] != '\n'
    requires newline == "" || newline == ['\n'] || newline == ['\r', '\n']
    ensures var l := indent + content + newline;
            Content(l) == content && Leading(l) == |indent| && NewlineOf(l) == newline
  {
    TerminatorStrips(indent + content, newline);
    LStripIs(indent, content);
  }

  lemma AssignmentIs(token: string, suffix: string)
    ensures Assignment(token, suffix) == "token" + [':', ' ', '"'] + token + ['"'] + suffix
  {
    assert Quoted(token) == [' ', '"'] + token + ['"'];
    assert "token" + [':'] + ([' ', '"'] + token + ['"'] + suffix)
        == "token" + [':', ' ', '"'] + token + ['"'] + suffix;
  }

  lemma PartsJoin(a: string, b: string, c: string, d: string)
    ensures a + (b + c) + d == a + b + c + d
  {
  }

  /** A YAML scalar between double quotes, when it has no escapes. */
  function QuotedScalar(s: string): Option<string> {
    if s == "" || s[0] != '"' || Find(s[1..], '"') == |s[1..]| || '\\' in Before(s[1..], '"') then None
    else Some(Before(s[1..], '"'))
  }

  /** The agent reads the token back from the line exactly when it has no quote and no backslash: the editor escapes
      nothing. */
  lemma TokenReadsBackIff(l: string, token: string)
    requires IsLine(l) && PlainEnding(l) && Unbroken(token)
    ensures QuotedScalar(LStrip(After(Content(NewLine(l, token)), ':'))) == Some(token)
       <==> '"' !in token && '\\' !in token
  {
    var suffix := CommentSuffix(l);
    ContentOfNew(l, token);
    AssignmentReads(token, suffix);
    QuotedIsRead(token, suffix);
    ScalarIsReadIff(token, suffix);
  }

  lemma QuotedIsRead(token: string, suffix: string)
    ensures LStrip(Quoted(token) + suffix) == ['"'] + (token + ['"'] + suffix)
  {
    var scalar := ['"'] + (token + ['"'] + suffix);
    assert Quoted(token) + suffix == Spaces(1) + scalar;
    LStripSpaces(1, scalar);
  }

  lemma ScalarIsReadIff(token: string, suffix: string)
    ensures QuotedScalar(['"'] + (token + ['"'] + suffix)) == Some(token) <==> '"' !in token && '\\' !in token
  {
    var rest := token + ['"'] + suffix;
    assert (['"'] + rest)[1..] == rest;
    if '"' !in token {
      PartitionAt(token, '"', suffix);
    }
  }

  // ----- What it leaves alone -----

  predicate Suffix(x: string, s: string) {
    |x| <= |s| && x == s[|s| - |x|..]
  }

  lemma {:induction false} LStripIsSuffix(s: string)
    ensures Suffix(LStrip(s), s)
  {
    if s == "" || !IsSpace(s[0]) {
    } else {
      LStripIsSuffix(s[1..]);
    }
  }

  lemma AfterIsSuffix(s: string, c: char)
    ensures Suffix(After(s, c), s)
    ensures c in s && s[|s| - 1] != c ==> After(s, c) != ""
  {
    var i := Find(s, c);
    if i == |s| {
      assert s[..i] == s;
    }
  }

  lemma SuffixOf(x: string, y: string, s: string)
    requires Suffix(x, y) && Suffix(y, s)
    ensures Suffix(x, s)
  {
  }

  /** The comment kept from a line, if any, is an end of what the line is without CR and LF. */
  function CommentOf(l: string): string {
    After(After(Content(l), ':'), '#')
  }

  lemma CommentIsSuffix(l: string)
    ensures Suffix(CommentOf(l), Stripped(l))
    ensures CommentSuffix(l) != "" ==> CommentSuffix(l) == "  #" + CommentOf(l)
    ensures CommentSuffix(l) != "" && Stripped(l)[|Stripped(l)| - 1] != '#' ==> CommentOf(l) != ""
  {
    var s, c := Stripped(l), Content(l);
    var a := After(c, ':');
    LStripIsSuffix(s);
    AfterIsSuffix(c, ':');
    AfterIsSuffix(a, '#');
    SuffixOf(a, c, s);
    SuffixOf(CommentOf(l), a, s);
    if '#' in a {
      assert a[|a| - 1] == s[|s| - 1];
    }
  }

  lemma LineParts(l: string)
    requires IsLine(l)
    ensures var b, t := l[..BodyLength(l)], Terminator(l);
            && l == b + t && Unbroken(b)
            && (t == "" || t == "\r\n" || (|t| == 1 && IsBreak(t[0])))
  {
    var n := BodyLength(l);
    if LineEnd(l) == n + 2 {
      assert Terminator(l) == "\r\n";
    }
  }

  predicate PlainEnding(l: string) {
    Terminator(l) == "" || Terminator(l) == "\n" || Terminator(l) == "\r\n"
  }

  lemma StripUnbroken(b: string)
    requires Unbroken(b)
    ensures Stripped(b) == b && Stripped(b + "\n") == b && Stripped(b + "\r\n") == b && Stripped(b + "\r") == b
  {
    assert (b + "\n")[..|b|] == b;
    assert (b + "\r")[..|b|] == b;
    assert (b + "\r\n")[..|b| + 1] == b + "\r";
  }

  lemma NewlineOfParts(b: string)
    requires Unbroken(b)
    ensures NewlineOf(b) == "" && NewlineOf(b + "\n") == "\n"
    ensures NewlineOf(b + "\r\n") == "\r\n" && NewlineOf(b + "\r") == ""
  {
    assert b != "" ==> !IsBreak(b[|b| - 1]);
    var n := b + "\n";
    assert n[|n| - 1] == '\n';
    assert |n| >= 2 ==> n[|n| - 2..][0] == b[|b| - 1];
    var r := b + "\r";
    assert r[|r| - 1] == '\r';
    assert |r| >= 2 ==> r[|r| - 2..][1] == '\r';
    var rn := b + "\r\n";
    assert rn[|rn| - 2..] == "\r\n";
  }

  lemma StripPlain(l: string)
    requires IsLine(l) && (PlainEnding(l) || Terminator(l) == "\r")
    ensures Stripped(l) == l[..BodyLength(l)]
    ensures PlainEnding(l) ==> NewlineOf(l) == Terminator(l)
    ensures Terminator(l) == "\r" ==> NewlineOf(l) == ""
  {
    var b, t := l[..BodyLength(l)], Terminator(l);
    assert l == b + t;
    StripUnbroken(b);
    NewlineOfParts(b);
    assert b + "" == b;
  }

  lemma UnbrokenConcat(a: string, b: string)
    requires Unbroken(a) && Unbroken(b)
    ensures Unbroken(a + b)
  {
  }

  lemma QuotedUnbroken(token: string)
    requires Unbroken(token)
    ensures Unbroken(Quoted(token))
  {
    UnbrokenConcat(" \"", token);
    UnbrokenConcat(" \"" + token, "\"");
  }

  lemma AssignmentUnbroken(token: string, suffix: string)
    requires Unbroken(token) && Unbroken(suffix)
    ensures Unbroken(Assignment(token, suffix))
  {
    QuotedUnbroken(token);
    UnbrokenConcat(Quoted(token), suffix);
    UnbrokenConcat(TOKEN_KEY, [':']);
    UnbrokenConcat(TOKEN_KEY + [':'], Quoted(token) + suffix);
  }

  lemma NewBodyUnbroken(l: string, token: string)
    requires Unbroken(token) && Unbroken(Stripped(l))
    ensures Unbroken(NewBody(l, token)) && NewBody(l, token) != ""
  {
    CommentIsSuffix(l);
    assert Unbroken(CommentOf(l));
    if CommentSuffix(l) != "" {
      UnbrokenConcat("  #", CommentOf(l));
    }
    AssignmentUnbroken(token, CommentSuffix(l));
    UnbrokenConcat(Spaces(Leading(l)), Assignment(token, CommentSuffix(l)));
  }

  lemma PlainLineKeepsItsEnd(l: string, token: string)
    requires IsLine(l) && PlainEnding(l) && Unbroken(token)
    ensures var n := NewLine(l, token);
            && IsLine(n) && Terminator(n) == Terminator(l)
            && n[..BodyLength(n)] == NewBody(l, token)
  {
    StripPlain(l);
    NewBodyUnbroken(l, token);
    var n, b := NewLine(l, token), NewBody(l, token);
    assert n == b + Terminator(l);
    assert n[..|b|] == b;
    BodyLengthIs(n, |b|);
  }

  /** The rewritten line ends as the old one did exactly when that ended in LF, CR LF or nothing, or when it kept a
      comment and with it one of the rarer line breaks; a lone CR is lost. */
  lemma TerminatorKeptIff(l: string, token: string)
    requires IsLine(l) && Unbroken(token)
    ensures Terminator(NewLine(l, token)) == Terminator(l)
       <==> PlainEnding(l) || (Terminator(l) != "\r" && CommentSuffix(l) != "")
  {
    LineParts(l);
    var n := NewLine(l, token);
    if PlainEnding(l) {
      PlainLineKeepsItsEnd(l, token);
    } else if Terminator(l) == "\r" {
      StripPlain(l);
      NewBodyUnbroken(l, token);
      assert n == NewBody(l, token);
      assert n[..|n|] == n;
      BodyLengthIs(n, |n|);
    } else {
      RareTerminator(l, token);
    }
  }

  lemma RareTerminator(l: string, token: string)
    requires IsLine(l) && Unbroken(token) && !PlainEnding(l) && Terminator(l) != "\r"
    ensures Terminator(NewLine(l, token)) == Terminator(l) <==> CommentSuffix(l) != ""
  {
    LineParts(l);
    var n, t := NewLine(l, token), Terminator(l);
    assert l[|l| - 1] == t[0] && t[0] != '\r' && t[0] != '\n';
    assert Stripped(l) == l && NewlineOf(l) == "";
    assert n == NewBody(l, token);
    if CommentSuffix(l) == "" {
      BareBodyEnds(l, token);
    } else {
      CommentedBodyEnds(l, token);
    }
  }

  lemma BareBodyEnds(l: string, token: string)
    requires Unbroken(token) && CommentSuffix(l) == ""
    ensures Terminator(NewBody(l, token)) == ""
  {
    var n := NewBody(l, token);
    AssignmentUnbroken(token, "");
    UnbrokenConcat(Spaces(Leading(l)), Assignment(token, ""));
    assert n[..|n|] == n;
    BodyLengthIs(n, |n|);
  }

  /** A non-empty suffix of a line broken only at its end. */
  lemma LastOfSuffix(c: string, l: string, last: char)
    requires Suffix(c, l) && c != "" && l[|l| - 1] == last && Unbroken(l[..|l| - 1])
    ensures c == c[..|c| - 1] + [last] && Unbroken(c[..|c| - 1])
  {
    var b := l[..|l| - 1];
    forall k | 0 <= k < |c| - 1 ensures !IsBreak(c[k]) {
      assert c[k] == b[|l| - |c| + k];
    }
  }

  lemma CommentedBodyEnds(l: string, token: string)
    requires IsLine(l) && Unbroken(token) && Stripped(l) == l && CommentSuffix(l) != ""
    requires |Terminator(l)| == 1 && IsBreak(Terminator(l)[0])
    ensures Terminator(NewBody(l, token)) == Terminator(l)
  {
    LineParts(l);
    CommentIsSuffix(l);
    var last, c := Terminator(l)[0], CommentOf(l);
    assert Terminator(l) == [last] && l[|l| - 1] == last && last != '#';
    var init := c[..|c| - 1];
    LastOfSuffix(c, l, last);
    CommentEndsLine(Spaces(Leading(l)), token, init, last);
  }

  lemma CommentEndsLine(spaces: string, token: string, init: string, last: char)
    requires Unbroken(spaces) && Unbroken(token) && Unbroken(init) && IsBreak(last)
    ensures Terminator(spaces + Assignment(token, "  #" + (init + [last]))) == [last]
  {
    UnbrokenConcat("  #", init);
    AssignmentUnbroken(token, "  #" + init);
    var body := spaces + Assignment(token, "  #" + init);
    UnbrokenConcat(spaces, Assignment(token, "  #" + init));
    var n := spaces + Assignment(token, "  #" + (init + [last]));
    assert "  #" + (init + [last]) == ("  #" + init) + [last];
    assert Quoted(token) + ("  #" + (init + [last])) == (Quoted(token) + ("  #" + init)) + [last];
    assert n == body + [last];
    assert n[..|body|] == body;
    BodyLengthIs(n, |body|);
  }

  /** When the token's line ends in LF, CR LF or nothing, which is every line of an LF or CR LF text, the result
      splits into the same lines with that one replaced: all others keep their text and their terminators. */
  lemma OneLineChanges(text: string, i: nat, token: string)
    requires i < |SplitLines(text)| && PlainEnding(SplitLines(text)[i]) && Unbroken(token)
    ensures var lines := SplitLines(text);
            SplitLines(Rewritten(lines, i, token)) == lines[i := NewLine(lines[i], token)]
  {
    var lines := SplitLines(text);
    SplitIsProper(text);
    PlainLineKeepsItsEnd(lines[i], token);
    var n := NewLine(lines[i], token);
    assert n[0] != '\n' by {
      assert n[..BodyLength(n)][0] == n[0];
    }
    StaysProper(lines, i, n);
    SplitInvertsConcat(lines[i := n]);
  }

  /** A line may give way to one with the same ending that does not begin with a line feed. */
  lemma StaysProper(lines: seq<string>, i: nat, n: string)
    requires i < |lines| && Proper(lines) && PlainEnding(lines[i])
    requires IsLine(n) && n[0] != '\n' && Terminator(n) == Terminator(lines[i])
    ensures Proper(lines[i := n])
  {
    var changed := lines[i := n];
    forall k | 0 <= k < |changed| - 1 ensures Follows(changed[k], changed[k + 1]) {
      assert Follows(lines[k], lines[k + 1]);
    }
  }

  /** Only LF and CR LF break lines. */
  predicate LfOrCrLf(text: string) {
    forall k :: 0 <= k < |text| && IsBreak(text[k]) ==> LfAt(text, k)
  }

  /** A line feed, or a carriage return right before one. */
  predicate LfAt(text: string, k: nat)
    requires k < |text|
  {
    text[k] == '\n' || (text[k] == '\r' && k + 1 < |text| && text[k + 1] == '\n')
  }

  lemma {:induction false} LfOrCrLfIsPlain(text: string, i: nat)
    requires LfOrCrLf(text) && i < |SplitLines(text)|
    ensures PlainEnding(SplitLines(text)[i])
    decreases |text|
  {
    if i == 0 {
      FirstLineIsPlain(text);
    } else {
      RestIsLfOrCrLf(text, LineEnd(text));
      LfOrCrLfIsPlain(text[LineEnd(text)..], i - 1);
    }
  }

  lemma FirstLineIsPlain(text: string)
    requires LfOrCrLf(text) && text != ""
    ensures PlainEnding(text[..LineEnd(text)])
  {
    var l, b := text[..LineEnd(text)], BodyLength(text);
    assert l[..b] == text[..b];
    BodyLengthIs(l, b);
    if b < |text| {
      assert LfAt(text, b);
      if text[b] == '\r' {
        assert LineEnd(text) == b + 2 && l[b..] == [text[b], text[b + 1]];
      } else {
        assert l[b..] == [text[b]];
      }
    }
  }

  lemma RestIsLfOrCrLf(text: string, n: nat)
    requires LfOrCrLf(text) && n <= |text|
    ensures LfOrCrLf(text[n..])
  {
    var rest := text[n..];
    forall k | 0 <= k < |rest| && IsBreak(rest[k]) ensures LfAt(rest, k) {
      assert rest[k] == text[k + n] && LfAt(text, k + n);
      assert k + 1 < |rest| ==> rest[k + 1] == text[k + 1 + n];
    }
  }

  // ----- Writing twice -----

  lemma ContentOfNew(l: string, token: string)
    requires IsLine(l) && PlainEnding(l) && Unbroken(token)
    ensures var n := NewLine(l, token);
            && Stripped(n) == NewBody(l, token)
            && Content(n) == Assignment(token, CommentSuffix(l))
            && Leading(n) == Leading(l)
  {
    PlainLineKeepsItsEnd(l, token);
    var n := NewLine(l, token);
    StripPlain(n);
    LeadingIsNatural(l);
    assert Assignment(token, CommentSuffix(l))[0] == 't';
    LStripSpaces(Leading(l), Assignment(token, CommentSuffix(l)));
  }

  lemma {:induction false} LStripSpaces(k: int, s: string)
    requires k >= 0 && s != "" && !IsSpace(s[0])
    ensures LStrip(Spaces(k) + s) == s
  {
    if k == 0 {
      assert Spaces(0) + s == s;
    } else {
      assert (Spaces(k) + s)[1..] == Spaces(k - 1) + s;
      LStripSpaces(k - 1, s);
    }
  }

  lemma LeadingIsNatural(l: string)
    ensures Leading(l) >= 0
  {
    LStripIsSuffix(Stripped(l));
  }

  /** A rewritten token line is again a token line at the same indent, with the same comment. */
  lemma NewLineLooksAlike(l: string, token: string)
    requires IsLine(l) && PlainEnding(l) && Unbroken(token) && '#' !in token
    requires ShapeOf(l).Nested? && ShapeOf(l).key == "token"
    ensures var n := NewLine(l, token);
            ShapeOf(n) == ShapeOf(l) && CommentSuffix(n) == CommentSuffix(l) && NewlineOf(n) == NewlineOf(l)
  {
    var n := NewLine(l, token);
    ContentOfNew(l, token);
    PlainLineKeepsItsEnd(l, token);
    StripPlain(l);
    StripPlain(n);
    var tail := Quoted(token) + CommentSuffix(l);
    AssignmentReads(token, CommentSuffix(l));
    NonBlank(n);
    CommentReadsBack(l, token, tail);
  }

  lemma AssignmentReads(token: string, suffix: string)
    ensures Strip(Before(Assignment(token, suffix), ':')) == "token"
    ensures After(Assignment(token, suffix), ':') == Quoted(token) + suffix
    ensures Assignment(token, suffix) != "" && Assignment(token, suffix)[0] == 't'
  {
    PartitionAt(TOKEN_KEY, ':', Quoted(token) + suffix);
    TrimmedStrip(TOKEN_KEY);
  }

  lemma NonBlank(n: string)
    requires Content(n) != "" && !IsSpace(Content(n)[0])
    ensures Strip(Stripped(n)) != ""
  {
    RStripKeepsHead(Content(n));
  }

  lemma {:induction false} RStripKeepsHead(s: string)
    requires s != "" && !IsSpace(s[0])
    ensures RStrip(s) != ""
  {
    if !IsSpace(s[|s| - 1]) {
    } else {
      RStripKeepsHead(s[..|s| - 1]);
    }
  }

  lemma CommentReadsBack(l: string, token: string, tail: string)
    requires '#' !in token && tail == Quoted(token) + CommentSuffix(l)
    ensures (if '#' in tail then "  #" + After(tail, '#') else "") == CommentSuffix(l)
  {
    var head := Quoted(token);
    assert '#' !in head;
    if CommentSuffix(l) == "" {
      assert tail == head;
    } else {
      var c := CommentOf(l);
      assert tail == (head + "  ") + ['#'] + c;
      PartitionAt(head + "  ", '#', c);
    }
  }

  lemma ShapesKeep(lines: seq<string>, i: nat, n: string)
    requires i < |lines| && ShapeOf(n) == ShapeOf(lines[i])
    ensures Shapes(lines[i := n]) == Shapes(lines)
  {
  }

  lemma SameNewLine(l: string, n: string, token: string)
    requires Leading(n) == Leading(l) && CommentSuffix(n) == CommentSuffix(l) && NewlineOf(n) == NewlineOf(l)
    ensures NewLine(n, token) == NewLine(l, token)
  {
  }

  /** Writing one token and then another is writing the other: the same line is found again, and its indentation,
      comment and terminator are as they were. */
  lemma WritingTwiceIsWritingOnce(text: string, i: nat, first: string, second: string)
    requires Target(Shapes(SplitLines(text)), i) && PlainEnding(SplitLines(text)[i])
    requires Unbroken(first) && '#' !in first
    ensures var lines := SplitLines(text);
            var again := SplitLines(Rewritten(lines, i, first));
            && Target(Shapes(again), i)
            && Rewritten(again, i, second) == Rewritten(lines, i, second)
  {
    var lines := SplitLines(text);
    SplitIsProper(text);
    OneLineChanges(text, i, first);
    NewLineLooksAlike(lines[i], first);
    var n := NewLine(lines[i], first);
    ShapesKeep(lines, i, n);
    SameNewLine(lines[i], n, second);
    PutTwice(lines, i, n, NewLine(n, second));
  }

  lemma PutTwice(lines: seq<string>, i: nat, first: string, second: string)
    requires i < |lines|
    ensures lines[i := first][i := second] == lines[i := second]
  {
  }
}
