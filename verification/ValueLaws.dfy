// The values a merge compares, by laws rather than by computation: trimming, collapsing,
// normal lists and texts, comparable URLs, title keys, letter case and the evidence chain.
module ValueLaws {
  import opened Text
  import opened MergeValues

  // ----------------------------------------------------------------- white space

  /** The white space of `str.isspace`, by code point. */
  lemma {:induction false} SpaceCodes(c: char)
    ensures IsSpace(c) <==>
      c as int in {
        9, 10, 11, 12, 13, 28, 29, 30, 31, 32, 133, 160, 5760, 8192, 8193, 8194, 8195, 8196, 8197, 8198, 8199, 8200,
        8201, 8202, 8232, 8233, 8239, 8287, 12288}
    ensures IsBreak(c) <==> c as int in {10, 11, 12, 13, 28, 29, 30, 133, 8232, 8233}
  {
  }

  /** Stripping takes white space off both ends, all of it and nothing else. */
  lemma {:induction false} StripIs(s: string) returns (left: string, right: string)
    ensures s == left + Strip(s) + right && AllSpace(left) && AllSpace(right) && Stripped(Strip(s))
  {
    hide Rstrip;
    left := LstripIs(s);
    right := RstripIs(Lstrip(s));
  }

  lemma {:induction false} LstripIs(s: string) returns (left: string)
    ensures s == left + Lstrip(s) && AllSpace(left)
  {
    left := "";
    if s != "" && IsSpace(s[0]) {
      var rest := LstripIs(s[1..]);
      left := [s[0]] + rest;
    }
  }

  lemma {:induction false} RstripIs(s: string) returns (right: string)
    ensures s == Rstrip(s) + right && AllSpace(right)
  {
    right := "";
    if s != "" && IsSpace(s[|s| - 1]) {
      var rest := RstripIs(s[..|s| - 1]);
      right := rest + [s[|s| - 1]];
    }
  }

  /** What ends a line: a carriage return with its line feed, or any other break. */
  predicate EndsLine(end: string, rest: string) {
    end == "\r\n" || (|end| == 1 && IsBreak(end[0]) && !(end == "\r" && rest != "" && rest[0] == '\n'))
  }

  lemma {:induction false} EmptyLine(end: string, rest: string)
    requires EndsLine(end, rest)
    ensures SplitLines(end + rest) == [""] + SplitLines(rest)
  {
    var s := end + rest;
    assert s[|end|..] == rest;
    if end == "\r\n" { assert s[..2] == end; } else { assert s[0] == end[0] && (|s| > 1 ==> s[1] == rest[0]); }
  }

  /** A line is what stands before its end. */
  lemma {:induction false} LinesAre(line: string, end: string, rest: string)
    requires Unbroken(line) && EndsLine(end, rest)
    ensures SplitLines(line + (end + rest)) == [line] + SplitLines(rest)
  {
    hide EndsLine;
    var s := line + (end + rest);
    if line == "" {
      EmptyLine(end, rest);
      assert s == end + rest;
    } else {
      LinesAre(line[1..], end, rest);
      assert s[1..] == line[1..] + (end + rest) && s[0] == line[0];
      NoBreakFirst(s);
      assert line == [line[0]] + line[1..];
    }
  }

  lemma {:induction false} LastLineIs(line: string)
    requires Unbroken(line)
    ensures SplitLines(line) == if line == "" then [] else [line]
  {
    if line != "" {
      LastLineIs(line[1..]);
      assert !IsBreak(line[0]);
      NoBreakFirst(line);
      if line[1..] == "" { assert [line[0]] == line; } else { assert [line[0]] + line[1..] == line; }
    }
  }

  lemma {:induction false} JoinIs(parts: seq<string>, part: string, sep: string)
    ensures Join([], sep) == "" && Join([part], sep) == part
    ensures parts != [] ==> Join([part] + parts, sep) == part + sep + Join(parts, sep)
  {
    assert ([part] + parts)[1..] == parts;
  }

  // ------------------------------------------------------------------ collapsing

  /** A text without white space. */
  predicate IsWord(w: string) { w != "" && forall i :: 0 <= i < |w| ==> !IsSpace(w[i]) }

  lemma {:induction false} WordIs(w: string, rest: string)
    requires IsWord(w) && (rest != "" ==> IsSpace(rest[0]))
    ensures Word(w + rest) == w
  {
    var s := w + rest;
    if |w| > 1 {
      assert s[1..] == w[1..] + rest;
      WordIs(w[1..], rest);
      assert w == [w[0]] + w[1..];
    } else {
      assert s[..1] == w;
    }
  }

  lemma {:induction false} WordsAfter(w: string, rest: string)
    requires IsWord(w) && (rest != "" ==> IsSpace(rest[0]))
    ensures WordsOf(w + rest) == [w] + WordsOf(rest)
  {
    hide Lstrip, Word;
    LstripKeeps(w, rest);
    WordIs(w, rest);
    assert (w + rest)[|w|..] == rest;
  }

  lemma {:induction false} WordsBehindSpace(pad: string, s: string)
    requires AllSpace(pad)
    ensures WordsOf(pad + s) == WordsOf(s)
  {
    hide Word;
    LstripBehindSpace(pad, s);
  }

  lemma {:induction false} LstripBehindSpace(pad: string, s: string)
    requires AllSpace(pad)
    ensures Lstrip(pad + s) == Lstrip(s)
  {
    if pad == "" {
      assert pad + s == s;
    } else {
      assert (pad + s)[1..] == pad[1..] + s;
      LstripBehindSpace(pad[1..], s);
    }
  }

  /** A text of words, each with white space in front of it, and some at the end. */
  function Spread(words: seq<string>, pads: seq<string>, end: string): string
    requires |words| == |pads|
  {
    if words == [] then end else pads[0] + (words[0] + Spread(words[1..], pads[1..], end))
  }

  predicate Separated(words: seq<string>, pads: seq<string>, end: string) {
    && |words| == |pads| && AllSpace(end)
    && (forall i :: 0 <= i < |words| ==> IsWord(words[i]) && AllSpace(pads[i]))
    && (forall i :: 1 <= i < |words| ==> pads[i] != "")
  }

  /** Collapsing puts one space between the words of a text, however they are spread, and none at its ends. */
  lemma {:induction false} CollapseIs(words: seq<string>, pads: seq<string>, end: string)
    requires Separated(words, pads, end)
    ensures WordsOf(Spread(words, pads, end)) == words
    ensures Collapse(Spread(words, pads, end)) == Join(words, " ")
  {
    hide WordsOf, IsSpace;
    if words == [] {
      WordsBehindSpace(end, "");
      assert end + "" == end;
      NoWords();
    } else {
      CollapseIs(words[1..], pads[1..], end);
      var rest := Spread(words[1..], pads[1..], end);
      SpreadStarts(words[1..], pads[1..], end);
      WordsBehindSpace(pads[0], words[0] + rest);
      WordsAfter(words[0], rest);
    }
  }

  lemma {:induction false} NoWords()
    ensures WordsOf("") == []
  {
  }

  lemma {:induction false} SpreadStarts(words: seq<string>, pads: seq<string>, end: string)
    requires |words| == |pads| && AllSpace(end) && (words != [] ==> pads[0] != "" && AllSpace(pads[0]))
    ensures Spread(words, pads, end) != "" ==> IsSpace(Spread(words, pads, end)[0])
  {
  }

  lemma {:induction false} SpaceIs()
    ensures IsSpace(' ') && AllSpace(" ")
  {
  }

  /** Words on either side of a word that stands between spaces. */
  lemma {:induction false} WordsAround(a: string, w: string, b: string)
    requires IsWord(w)
    ensures WordsOf(a + (" " + w + " ") + b) == WordsOf(a) + [w] + WordsOf(b)
    decreases |a|
  {
    hide WordsOf, Lstrip, IsSpace, IsWord, AllSpace;
    SpaceIs();
    var tail := " " + w + " " + b;
    var t := Lstrip(a);
    var pad := LstripIs(a);
    assert a + (" " + w + " ") + b == pad + (t + tail);
    assert a == pad + t;
    WordsBehindSpace(pad, t + tail);
    WordsBehindSpace(pad, t);
    if t == "" {
      assert t + tail == " " + (w + (" " + b));
      WordsBehindSpace(" ", w + (" " + b));
      WordsAfter(w, " " + b);
      WordsBehindSpace(" ", b);
      NoWords();
    } else {
      WordsAroundText(t, w, b);
    }
  }

  lemma {:induction false} WordsAroundText(t: string, w: string, b: string)
    requires IsWord(w) && t != "" && !IsSpace(t[0])
    ensures WordsOf(t + (" " + w + " " + b)) == WordsOf(t) + [w] + WordsOf(b)
    decreases |t|, 0
  {
    hide WordsOf, IsSpace;
    SpaceIs();
    var tail := " " + w + " " + b;
    var first, more := FirstWord(t);
    assert t + tail == first + (more + tail);
    WordsAfter(first, more);
    WordsAfter(first, more + tail);
    WordsAround(more, w, b);
    assert more + (" " + w + " ") + b == more + tail;
  }

  lemma {:induction false} FirstWord(t: string) returns (w: string, rest: string)
    requires t != "" && !IsSpace(t[0])
    ensures t == w + rest && IsWord(w) && (rest != "" ==> IsSpace(rest[0]))
  {
    if |t| == 1 || IsSpace(t[1]) {
      w, rest := t[..1], t[1..];
    } else {
      w, rest := FirstWord(t[1..]);
      w := [t[0]] + w;
      assert t == [t[0]] + t[1..];
    }
  }

  // --------------------------------------------------------------- normal values

  /** What one element of a list becomes: its trimmed text, unless that is blank. */
  lemma {:induction false} TextsIs(a: seq<Item>, item: Item, b: seq<Item>)
    ensures Texts(a + [item] + b) == Texts(a) + (if Strip(item.text) == "" then [] else [Strip(item.text)]) + Texts(b)
  {
    hide Strip;
    if a == [] {
      assert a + [item] + b == [item] + b;
    } else {
      assert (a + [item] + b)[1..] == a[1..] + [item] + b;
      TextsIs(a[1..], item, b);
    }
  }

  /** The normal list and the normal text of every kind of value. */
  lemma {:induction false} NormalIs(t: string, items: seq<Item>, empty: bool)
    ensures NormList(Null) == [] && NormList(Thing(empty)) == [] && NormList(Items(items)) == Texts(items)
    ensures NormList(Words(t)) == if Strip(t) == "" then [] else [Strip(t)]
    ensures NormStr(Null) == "" && NormStr(Thing(empty)) == "" && NormStr(Words(t)) == Collapse(t)
    ensures NormStr(Items(items)) == Join(Texts(items), " | ")
    ensures IsEmpty(Null) && (IsEmpty(Thing(empty)) <==> empty) && (IsEmpty(Items(items)) <==> |items| == 0)
    ensures IsEmpty(Words(t)) <==> AllSpace(t)
    ensures !Truthy(Null) && (Truthy(Thing(empty)) <==> !empty) && (Truthy(Items(items)) <==> |items| > 0)
    ensures Truthy(Words(t)) <==> |t| > 0
  {
    hide Lstrip, Rstrip, Texts, WordsOf;
    var left, right := StripIs(t);
    if AllSpace(t) {
      Blank(t);
    }
  }

  lemma {:induction false} Blank(t: string)
    requires AllSpace(t)
    ensures Strip(t) == ""
  {
    StripPad(t, "", "");
    assert t + "" + "" == t;
  }

  // ------------------------------------------------------------------------ URLs

  predicate Slashes(s: string) { forall i :: 0 <= i < |s| ==> s[i] == '/' }

  /** A comparable URL: with a scheme, and without a slash at its end. */
  predicate Comparable(v: string) {
    (StartsWith(v, "http://") || StartsWith(v, "https://")) && v[|v| - 1] != '/'
  }

  lemma {:induction false} DropSlashesIs(v: string, slashes: string)
    requires Slashes(slashes) && (v != "" ==> v[|v| - 1] != '/')
    ensures DropSlashes(v + slashes) == v
  {
    if slashes == "" {
      assert v + slashes == v;
    } else {
      assert (v + slashes)[..|v + slashes| - 1] == v + slashes[..|slashes| - 1];
      DropSlashesIs(v, slashes[..|slashes| - 1]);
    }
  }

  lemma {:induction false} SlashesDropped(s: string) returns (slashes: string)
    ensures s == DropSlashes(s) + slashes && Slashes(slashes)
    ensures DropSlashes(s) != "" ==> DropSlashes(s)[|DropSlashes(s)| - 1] != '/'
  {
    slashes := "";
    if s != "" && s[|s| - 1] == '/' {
      var rest := SlashesDropped(s[..|s| - 1]);
      slashes := rest + ['/'];
    }
  }

  /** White space around a URL and slashes at its end make no difference. */
  lemma {:induction false} UrlIs(left: string, v: string, slashes: string, right: string)
    requires Comparable(v) && Slashes(slashes) && Stripped(v + slashes) && AllSpace(left) && AllSpace(right)
    ensures Url(left + (v + slashes) + right) == v
  {
    hide Strip, DropSlashes, StartsWith, IsSpace;
    StripPad(left, v + slashes, right);
    DropSlashesIs(v, slashes);
  }

  /** Only such texts have a comparable URL. */
  lemma {:induction false} UrlOnly(s: string) returns (left: string, slashes: string, right: string)
    ensures Url(s) != "" ==>
      && Comparable(Url(s)) && Slashes(slashes) && Stripped(Url(s) + slashes) && AllSpace(left) && AllSpace(right)
      && s == left + (Url(s) + slashes) + right
  {
    hide Strip, DropSlashes, IsSpace;
    left, right := StripIs(s);
    slashes := SlashesDropped(Strip(s));
  }

  // ------------------------------------------------------------------ letter case

  const LOWER := "abcdefghijklmnopqrstuvwxyz"
  const UPPER := "ABCDEFGHIJKLMNOPQRSTUVWXYZ"

  /** Case changes the twenty-six letters, in their order, and nothing else. */
  lemma {:induction false} CaseIs(c: char)
    ensures (c in LOWER <==> 'a' <= c <= 'z') && (c in UPPER <==> 'A' <= c <= 'Z')
    ensures UpperChar(c) as int == if 'a' <= c <= 'z' then c as int - 32 else c as int
    ensures LowerChar(c) as int == if 'A' <= c <= 'Z' then c as int + 32 else c as int
  {
    assert forall i :: 0 <= i < 26 ==> LOWER[i] as int == 97 + i && UPPER[i] as int == 65 + i;
    if 'a' <= c <= 'z' { assert LOWER[c as int - 97] == c; }
    if 'A' <= c <= 'Z' { assert UPPER[c as int - 65] == c; }
  }

  lemma {:induction false} CharByChar(s: string)
    ensures |Upper(s)| == |Lower(s)| == |s|
    ensures forall i :: 0 <= i < |s| ==> Upper(s)[i] == UpperChar(s[i]) && Lower(s)[i] == LowerChar(s[i])
  {
  }

  /** A code is compared in capitals, without the white space around it. */
  lemma {:induction false} CodeIs(left: string, code: string, right: string)
    requires Stripped(code) && AllSpace(left) && AllSpace(right)
    ensures StrCode(left + code + right) == Upper(code)
  {
    hide Strip, Upper;
    StripPad(left, code, right);
  }

  /** A phrase is mentioned where it stands between two parts of the text. */
  lemma {:induction false} MentionsIff(s: string, phrase: string)
    requires phrase != ""
    ensures Mentions(s, phrase) <==> exists before, after :: s == before + phrase + after
  {
    if Mentions(s, phrase) {
      var i :| 0 <= i < |s| && StandsAt(s, i, phrase);
      assert s == s[..i] + phrase + s[i + |phrase|..];
    }
    if before, after :| s == before + phrase + after {
      assert s[|before|..|before| + |phrase|] == phrase;
      assert StandsAt(s, |before|, phrase);
    }
  }

  lemma {:induction false} LowerConcat(a: string, b: string)
    ensures Lower(a + b) == Lower(a) + Lower(b)
  {
  }

  /** A text mentions one of some phrases if a spelling of it, in any case, stands anywhere in the text. */
  lemma {:induction false} SpelledIsMentioned(before: string, spelled: string, after: string, phrases: seq<string>)
    requires spelled != "" && Lower(spelled) in phrases
    ensures MentionsAny(before + spelled + after, phrases)
  {
    hide Lower, Mentions;
    LowerConcat(before + spelled, after);
    LowerConcat(before, spelled);
    var phrase := Lower(spelled);
    LowerLength(spelled);
    MentionsIff(Lower(before + spelled + after), phrase);
    assert Lower(before + spelled + after) == Lower(before) + phrase + Lower(after);
    var k :| 0 <= k < |phrases| && phrases[k] == phrase;
  }

  lemma {:induction false} LowerLength(s: string)
    ensures |Lower(s)| == |s|
  {
  }

  /** And only then. */
  lemma {:induction false} MentionedIsSpelled(s: string, phrases: seq<string>)
    returns (before: string, spelled: string, after: string)
    requires MentionsAny(s, phrases) && "" !in phrases
    ensures s == before + spelled + after && Lower(spelled) in phrases
  {
    hide Lower;
    var k :| 0 <= k < |phrases| && Mentions(Lower(s), phrases[k]);
    var i :| 0 <= i < |Lower(s)| && StandsAt(Lower(s), i, phrases[k]);
    LowerLength(s);
    before, spelled, after := s[..i], s[i..i + |phrases[k]|], s[i + |phrases[k]|..];
    LowerSlice(s, i, i + |phrases[k]|);
    assert phrases[k] in phrases;
  }

  lemma {:induction false} LowerSlice(s: string, i: nat, j: nat)
    requires i <= j <= |s|
    ensures Lower(s[i..j]) == Lower(s)[i..j]
  {
  }

  // ------------------------------------------------------------------- title keys

  lemma {:induction false} KeyPartsConcat(a: string, b: string)
    ensures KeyParts(a + b) == KeyParts(a) + KeyParts(b)
  {
    if a == "" {
      assert a + b == b;
    } else {
      assert (a + b)[1..] == a[1..] + b;
      KeyPartsConcat(a[1..], b);
    }
  }

  predicate KeyChar(c: char) { 'a' <= c <= 'z' || '0' <= c <= '9' || c == ' ' }

  /** A text of small letters, digits and spaces is its own key, up to spacing. */
  lemma {:induction false} PlainKey(s: string)
    requires forall i :: 0 <= i < |s| ==> KeyChar(s[i])
    ensures TitleKey(s) == Collapse(s)
  {
    hide Collapse;
    PlainParts(s);
  }

  lemma {:induction false} PlainParts(s: string)
    requires forall i :: 0 <= i < |s| ==> KeyChar(s[i])
    ensures KeyParts(s) == s
  {
    if s != "" {
      PlainParts(s[1..]);
      assert s == [s[0]] + s[1..];
    }
  }

  /** Case makes no difference to a key, signs count as words, and any other character as a space. */
  lemma {:induction false} KeyOfChar(a: string, c: char, b: string)
    ensures TitleKey(a + [LowerChar(c)] + b) == TitleKey(a + [c] + b)
    ensures c == '+' ==> TitleKey(a + [c] + b) == TitleKey(a + " plus " + b)
    ensures c == '-' ==> TitleKey(a + [c] + b) == TitleKey(a + " minus " + b)
    ensures c !in {'+', '-'} && !KeyChar(LowerChar(c)) ==> TitleKey(a + [c] + b) == TitleKey(a + " " + b)
  {
    hide Collapse, KeyPart, KeyParts, LowerChar, KeyChar;
    forall m: string ensures KeyParts(a + m + b) == KeyParts(a) + KeyParts(m) + KeyParts(b) {
      KeyPartsConcat(a + m, b);
      KeyPartsConcat(a, m);
    }
    OneChar(c);
    OneChar(LowerChar(c));
    SignsAre(c);
  }

  lemma {:induction false} OneChar(c: char)
    ensures KeyParts([c]) == KeyPart(c)
  {
    assert [c][1..] == "";
  }

  lemma {:induction false} SignsAre(c: char)
    ensures KeyPart(LowerChar(c)) == KeyPart(c)
    ensures KeyPart('+') == KeyParts(" plus ") && KeyPart('-') == KeyParts(" minus ") && KeyParts(" ") == " "
    ensures c !in {'+', '-'} && !KeyChar(LowerChar(c)) ==> KeyPart(c) == " "
  {
    hide KeyParts;
    PlainParts(" plus ");
    PlainParts(" minus ");
    PlainParts(" ");
    LowerTwice(c);
  }

  lemma {:induction false} LowerTwice(c: char)
    ensures LowerChar(LowerChar(c)) == LowerChar(c)
  {
  }

  lemma {:induction false} JoinLonger(a: seq<string>, x: string, y: string, b: seq<string>)
    ensures |Join(a + [x] + b, " ")| - |x| == |Join(a + [y] + b, " ")| - |y|
  {
    if a == [] {
      assert a + [x] + b == [x] + b && a + [y] + b == [y] + b;
      assert ([x] + b)[1..] == b == ([y] + b)[1..];
    } else {
      assert (a + [x] + b)[1..] == a[1..] + [x] + b && (a + [y] + b)[1..] == a[1..] + [y] + b;
      JoinLonger(a[1..], x, y, b);
    }
  }

  /** The two halves of a bus are never folded into one key. */
  lemma {:induction false} PolarityMatters(a: string, b: string)
    ensures TitleKey(a + "+" + b) != TitleKey(a + "-" + b)
  {
    hide WordsOf, KeyPart, Join;
    var x, y := KeyParts(a), KeyParts(b);
    KeyPartsConcat(a + "+", b);
    KeyPartsConcat(a, "+");
    KeyPartsConcat(a + "-", b);
    KeyPartsConcat(a, "-");
    OneChar('+');
    OneChar('-');
    SignParts();
    SignWords();
    WordsAround(x, "plus", y);
    WordsAround(x, "minus", y);
    JoinLonger(WordsOf(x), "plus", "minus", WordsOf(y));
  }

  lemma {:induction false} SignParts()
    ensures KeyPart('+') == " " + "plus" + " " && KeyPart('-') == " " + "minus" + " "
  {
  }

  lemma {:induction false} SignWords()
    ensures IsWord("plus") && IsWord("minus")
  {
  }

  // -------------------------------------------------------------------- evidence

  /** The evidence is marked authoritative only under three trimmed statuses, never for want of one. */
  lemma {:induction false} AuthoritativeIff(evidence: string, p: Provenance, url: string)
    ensures var m := EvidenceOf(evidence, p, url);
      && "evidence_authoritative" in m
      && (m["evidence_authoritative"] == "true" <==>
            Strip(p.status) in {"verified", "operator_verified", "human_verified"})
      && (m["evidence_authoritative"] != "true" ==> m["evidence_authoritative"] == "false")
      && "evidence_verification_status" in m
      && m["evidence_verification_status"] == (if Strip(p.status) == "" then "unverified" else Strip(p.status))
  {
    hide Lstrip, Rstrip, TextPart, UrlPart, HarvestPart;
    Unverified();
    if p.status == "" { Blank(""); }
  }

  lemma {:induction false} Unverified()
    ensures Strip("unverified") == "unverified"
  {
    StripId("unverified");
  }

  /** The text of the evidence comes with its digest; where there is none, with neither. */
  lemma {:induction false} EvidenceText(evidence: string, p: Provenance, url: string)
    ensures var m := EvidenceOf(evidence, p, url);
      && ("evidence" in m <==> Strip(evidence) != "") && ("evidence_sha256" in m <==> Strip(evidence) != "")
      && ("evidence" in m ==> m["evidence"] == evidence)
      && ("evidence_sha256" in m ==> m["evidence_sha256"] == if |p.digest| > 0 then p.digest else DigestOf(evidence))
  {
    hide Strip, UrlPart, HarvestPart, StatusPart, DigestOf;
  }

  /** The URL is kept twice, and what is known of the harvest once. */
  lemma {:induction false} EvidenceSource(evidence: string, p: Provenance, url: string)
    ensures var m := EvidenceOf(evidence, p, url);
      && ("evidence_url" in m <==> |url| > 0) && ("evidence_source_url" in m <==> |url| > 0)
      && (|url| > 0 ==> m["evidence_url"] == url && m["evidence_source_url"] == url)
  {
    hide TextPart, HarvestPart, StatusPart;
  }

  lemma {:induction false} EvidenceHarvest(evidence: string, p: Provenance, url: string)
    ensures var m := EvidenceOf(evidence, p, url);
      && ("evidence_source_id" in m <==> |p.sourceId| > 0)
      && (|p.sourceId| > 0 ==> m["evidence_source_id"] == p.sourceId)
      && ("evidence_retrieved_at" in m <==> |p.retrievedAt| > 0)
      && (|p.retrievedAt| > 0 ==> m["evidence_retrieved_at"] == p.retrievedAt)
      && "evidence_adapter_version" in m
      && m["evidence_adapter_version"] ==
         (if |p.adapterVersion| > 0 then p.adapterVersion else "t66_adapter/<=1.0-legacy")
  {
    hide TextPart, UrlPart, StatusPart;
  }
}
