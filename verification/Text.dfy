// String helpers shared by the line-oriented modules: the whitespace trimming,
// splitting and joining that the scripts take from Python's `str` type.
module Text {

  /** The characters of `str.isspace`. */
  predicate IsSpace(c: char) {
    || '\t' <= c <= '\r' || '\U{001C}' <= c <= ' ' || c == '\U{0085}' || c == '\U{00A0}' || c == '\U{1680}'
    || '\U{2000}' <= c <= '\U{200A}' || c == '\U{2028}' || c == '\U{2029}' || c == '\U{202F}'
    || c == '\U{205F}' || c == '\U{3000}'
  }

  /** The characters at which `str.splitlines` splits; each is white space. */
  predicate IsBreak(c: char) {
    || '\n' <= c <= '\r' || '\U{001C}' <= c <= '\U{001E}' || c == '\U{0085}' || c == '\U{2028}' || c == '\U{2029}'
  }

  predicate Unbroken(s: string) { forall i :: 0 <= i < |s| ==> !IsBreak(s[i]) }

  /** `str.splitlines`: carriage return and line feed together are one break, and a last break opens no line. */
  function SplitLines(text: string): (r: seq<string>)
    ensures forall i :: 0 <= i < |r| ==> Unbroken(r[i])
  {
    if text == "" then []
    else if StartsWith(text, "\r\n") then [""] + SplitLines(text[2..])
    else if IsBreak(text[0]) then [""] + SplitLines(text[1..])
    else
      var rest := SplitLines(text[1..]);
      if rest == [] then [[text[0]]] else [[text[0]] + rest[0]] + rest[1..]
  }

  function WriteLines(lines: seq<string>): string {
    if lines == [] then "" else lines[0] + "\n" + WriteLines(lines[1..])
  }

  lemma {:induction false} LineHead(line: string, rest: string)
    requires Unbroken(line)
    ensures SplitLines(line + "\n" + rest) == [line] + SplitLines(rest)
  {
    var s := line + "\n" + rest;
    if line == "" {
      assert s[1..] == rest;
      assert s[..1] == "\n";
    } else {
      assert s[0] == line[0] && s[1..] == line[1..] + "\n" + rest;
      LineHead(line[1..], rest);
      assert [line[0]] + line[1..] == line;
      NoBreakFirst(s);
    }
  }

  lemma {:induction false} NoBreakFirst(s: string)
    requires s != "" && !IsBreak(s[0])
    ensures !StartsWith(s, "\r\n")
  {
    if |s| >= 2 { assert s[..2][0] == s[0]; }
  }

  /** Written lines are read back exactly when none of them holds a break. */
  lemma {:induction false} WrittenLinesReadIff(lines: seq<string>)
    ensures SplitLines(WriteLines(lines)) == lines <==> forall i :: 0 <= i < |lines| ==> Unbroken(lines[i])
  {
    hide Unbroken, SplitLines;
    if forall i :: 0 <= i < |lines| ==> Unbroken(lines[i]) { WrittenLinesRead(lines); }
  }

  lemma {:induction false} WrittenLinesRead(lines: seq<string>)
    requires forall i :: 0 <= i < |lines| ==> Unbroken(lines[i])
    ensures SplitLines(WriteLines(lines)) == lines
  {
    hide Unbroken;
    if lines != [] {
      WrittenLinesRead(lines[1..]);
      LineHead(lines[0], WriteLines(lines[1..]));
    }
  }

  predicate AllSpace(s: string) {
    forall i :: 0 <= i < |s| ==> IsSpace(s[i])
  }

  predicate Stripped(s: string) {
    s != "" ==> !IsSpace(s[0]) && !IsSpace(s[|s| - 1])
  }

  function Lstrip(s: string): (r: string)
    ensures |r| <= |s|
    ensures r != "" ==> !IsSpace(r[0]) && r[|r| - 1] == s[|s| - 1]
  {
    if s != "" && IsSpace(s[0]) then Lstrip(s[1..]) else s
  }

  function Rstrip(s: string): (r: string)
    ensures |r| <= |s| && r == s[..|r|]
    ensures r != "" ==> !IsSpace(r[|r| - 1])
  {
    if s != "" && IsSpace(s[|s| - 1]) then Rstrip(s[..|s| - 1]) else s
  }

  /** `str.strip`: the result never begins or ends with white space. */
  function Strip(s: string): (r: string)
    ensures |r| <= |s| && Stripped(r)
  {
    Rstrip(Lstrip(s))
  }

  lemma {:induction false} StripId(s: string)
    requires Stripped(s)
    ensures Strip(s) == s
  {}

  lemma {:induction false} LstripPad(pad: string, s: string)
    requires AllSpace(pad) && Stripped(s)
    ensures Lstrip(pad + s) == s
  {
    if pad == "" {
      assert pad + s == s;
    } else {
      assert (pad + s)[1..] == pad[1..] + s;
      LstripPad(pad[1..], s);
    }
  }

  lemma {:induction false} RstripPad(s: string, pad: string)
    requires AllSpace(pad) && Stripped(s)
    ensures Rstrip(s + pad) == s
  {
    if pad == "" {
      assert s + pad == s;
    } else {
      assert (s + pad)[..|s + pad| - 1] == s + pad[..|pad| - 1];
      RstripPad(s, pad[..|pad| - 1]);
    }
  }

  lemma {:induction false} LstripKeeps(s: string, tail: string)
    requires s != "" && !IsSpace(s[0])
    ensures Lstrip(s + tail) == s + tail
  {}

  /** Padding of white space on either side is exactly what `Strip` removes. */
  lemma {:induction false} StripPad(left: string, s: string, right: string)
    requires AllSpace(left) && AllSpace(right) && Stripped(s)
    ensures Strip(left + s + right) == s
  {
    hide Rstrip;
    if s == "" {
      assert left + s + right == (left + right) + "";
      LstripPad(left + right, "");
      RstripPad("", "");
    } else {
      assert left + s + right == left + (s + right);
      LstripTail(left, s + right);
      RstripPad(s, right);
    }
  }

  lemma {:induction false} LstripTail(pad: string, s: string)
    requires AllSpace(pad) && s != "" && !IsSpace(s[0])
    ensures Lstrip(pad + s) == s
  {
    if pad == "" {
      assert pad + s == s;
    } else {
      assert (pad + s)[1..] == pad[1..] + s;
      LstripTail(pad[1..], s);
    }
  }

  /** `str.split(sep)`: always at least one piece, no piece holds the separator. */
  function Split(s: string, sep: char): (r: seq<string>)
    ensures |r| >= 1
    ensures forall i :: 0 <= i < |r| ==> sep !in r[i]
  {
    if s == "" then [""]
    else
      var rest := Split(s[1..], sep);
      if s[0] == sep then [""] + rest else [[s[0]] + rest[0]] + rest[1..]
  }

  function Join(parts: seq<string>, sep: string): string {
    if parts == [] then ""
    else if |parts| == 1 then parts[0]
    else parts[0] + sep + Join(parts[1..], sep)
  }

  lemma {:induction false} JoinSplit(s: string, sep: char)
    ensures Join(Split(s, sep), [sep]) == s
  {
    if s != "" {
      var rest := Split(s[1..], sep);
      JoinSplit(s[1..], sep);
      if s[0] == sep {
        assert ([""] + rest)[1..] == rest;
        assert s == "" + [sep] + s[1..];
      } else {
        var r := [[s[0]] + rest[0]] + rest[1..];
        assert r[1..] == rest[1..];
        assert s == [s[0]] + s[1..];
        if |rest| > 1 {
          assert [s[0]] + (rest[0] + [sep] + Join(rest[1..], [sep]))
              == [s[0]] + rest[0] + [sep] + Join(rest[1..], [sep]);
        }
      }
    }
  }

  lemma {:induction false} SplitPiece(piece: string, sep: char)
    requires sep !in piece
    ensures Split(piece, sep) == [piece]
  {
    if piece != "" {
      SplitPiece(piece[1..], sep);
      assert piece == [piece[0]] + piece[1..];
    }
  }

  lemma {:induction false} SplitHead(piece: string, rest: string, sep: char)
    requires sep !in piece
    ensures Split(piece + [sep] + rest, sep) == [piece] + Split(rest, sep)
  {
    var s := piece + [sep] + rest;
    if piece == "" {
      assert s[1..] == rest;
    } else {
      assert s[1..] == piece[1..] + [sep] + rest;
      SplitHead(piece[1..], rest, sep);
      assert piece == [piece[0]] + piece[1..];
    }
  }

  /** Splitting what was joined with a separator no piece contains gives the pieces back. */
  lemma {:induction false} SplitJoin(parts: seq<string>, sep: char)
    requires |parts| >= 1
    requires forall i :: 0 <= i < |parts| ==> sep !in parts[i]
    ensures Split(Join(parts, [sep]), sep) == parts
  {
    if |parts| == 1 {
      SplitPiece(parts[0], sep);
    } else {
      SplitHead(parts[0], Join(parts[1..], [sep]), sep);
      SplitJoin(parts[1..], sep);
    }
  }

  lemma {:induction false} SplitConcat(a: string, b: string, sep: char)
    ensures Split(a + [sep] + b, sep) == Split(a, sep) + Split(b, sep)
  {
    if a == "" {
      assert a + [sep] + b == [sep] + b;
      assert ([sep] + b)[1..] == b;
    } else {
      var s := a + [sep] + b;
      assert s[1..] == a[1..] + [sep] + b;
      SplitConcat(a[1..], b, sep);
    }
  }

  predicate StartsWith(s: string, prefix: string) {
    |prefix| <= |s| && s[..|prefix|] == prefix
  }

  function LowerChar(c: char): char {
    if 'A' <= c <= 'Z' then ((c as int) + 32) as char else c
  }

  function Lower(s: string): string {
    seq(|s|, i requires 0 <= i < |s| => LowerChar(s[i]))
  }

  predicate StandsAt(s: string, i: nat, phrase: string) {
    i + |phrase| <= |s| && s[i..i + |phrase|] == phrase
  }

  predicate Mentions(s: string, phrase: string) {
    exists i :: 0 <= i < |s| && StandsAt(s, i, phrase)
  }

  /** A case-insensitive search for any of some fixed lower-case phrases. */
  predicate MentionsAny(s: string, phrases: seq<string>) {
    exists k :: 0 <= k < |phrases| && Mentions(Lower(s), phrases[k])
  }
}
