// The values a merge moves about, and the pure helpers that normalise them.
module MergeValues {
  import opened Wrappers
  import opened Text

  /** A list element: a string, or anything else with the text `str` gives it. */
  datatype Item = Plain(text: string) | Other(text: string)

  /** A JSON value as the merge tells values apart. `Thing` is an object, a number or a boolean. */
  datatype Value = Null | Words(text: string) | Items(items: seq<Item>) | Thing(empty: bool)

  predicate IsEmpty(v: Value) {
    match v
    case Null => true
    case Words(t) => Strip(t) == ""
    case Items(items) => items == []
    case Thing(empty) => empty
  }

  /** Python truth: what the left side of `or` must be to win. */
  predicate Truthy(v: Value) {
    match v
    case Null => false
    case Words(t) => t != ""
    case Items(items) => items != []
    case Thing(empty) => !empty
  }

  function Texts(items: seq<Item>): (r: seq<string>)
    ensures |r| <= |items|
    ensures forall i :: 0 <= i < |r| ==> r[i] != "" && Stripped(r[i])
  {
    if items == [] then []
    else (if Strip(items[0].text) != "" then [Strip(items[0].text)] else []) + Texts(items[1..])
  }

  function NormList(v: Value): (r: seq<string>)
    ensures forall i :: 0 <= i < |r| ==> r[i] != "" && Stripped(r[i])
  {
    match v
    case Words(t) => if Strip(t) != "" then [Strip(t)] else []
    case Items(items) => Texts(items)
    case Null => []
    case Thing(_) => []
  }

  function AsItems(texts: seq<string>): (r: Value)
    ensures r.Items? && |r.items| == |texts|
  {
    Items(seq(|texts|, i requires 0 <= i < |texts| => Plain(texts[i])))
  }

  /** Storing a normalised list and normalising it again changes nothing. */
  lemma {:induction false} NormStored(texts: seq<string>)
    requires forall i :: 0 <= i < |texts| ==> texts[i] != "" && Stripped(texts[i])
    ensures NormList(AsItems(texts)) == texts
  {
    hide Strip;
    if texts != [] {
      StripId(texts[0]);
      NormStored(texts[1..]);
      assert AsItems(texts).items[1..] == AsItems(texts[1..]).items;
    }
  }

  /** Runs of white space become one space; none at the ends. */
  function Collapse(s: string): string { Join(WordsOf(s), " ") }

  function WordsOf(s: string): (r: seq<string>)
    ensures forall i :: 0 <= i < |r| ==> r[i] != ""
    decreases |s|
  {
    var t := Lstrip(s);
    if t == "" then []
    else
      var w := Word(t);
      [w] + WordsOf(t[|w|..])
  }

  function Word(s: string): (w: string)
    requires s != "" && !IsSpace(s[0])
    ensures 0 < |w| <= |s|
  {
    if |s| == 1 || IsSpace(s[1]) then s[..1] else s[..1] + Word(s[1..])
  }

  function NormStr(v: Value): string {
    match v
    case Words(t) => Collapse(t)
    case Items(items) => Join(Texts(items), " | ")
    case Null => ""
    case Thing(_) => ""
  }

  function Normal(list: bool, v: Value): Value {
    if list then AsItems(NormList(v)) else Words(NormStr(v))
  }

  // --------------------------------------------------------------------- URLs

  function DropSlashes(s: string): (r: string)
    ensures |r| <= |s|
  {
    if s != "" && s[|s| - 1] == '/' then DropSlashes(s[..|s| - 1]) else s
  }

  /** The comparable form of a URL, or "" for anything that is none. */
  function Url(s: string): string {
    var v := DropSlashes(Strip(s));
    if StartsWith(v, "http://") || StartsWith(v, "https://") then v else ""
  }

  // --------------------------------------------------------------- title keys

  function UpperChar(c: char): char {
    if 'a' <= c <= 'z' then ((c as int) - 32) as char else c
  }

  function Upper(s: string): (r: string)
    ensures |r| == |s|
  {
    seq(|s|, i requires 0 <= i < |s| => UpperChar(s[i]))
  }

  /** What one character of a title contributes to its key: polarity signs become words. */
  function KeyPart(c: char): string {
    var l := LowerChar(c);
    if l == '+' then " plus "
    else if l == '-' then " minus "
    else if 'a' <= l <= 'z' || '0' <= l <= '9' then [l]
    else " "
  }

  function KeyParts(s: string): string {
    if s == "" then "" else KeyPart(s[0]) + KeyParts(s[1..])
  }

  /** The polarity-aware key by which titles are compared. */
  function TitleKey(s: string): string { Collapse(KeyParts(s)) }

  function StrCode(s: string): string { Upper(Strip(s)) }

  // -------------------------------------------------------------- the evidence

  /** Where the evidence comes from; "" stands for a missing part. */
  datatype Provenance = Provenance(
    digest: string, sourceId: string, retrievedAt: string, adapterVersion: string, status: string)

  function Or(a: string, b: string): string { if a != "" then a else b }

  const AUTHORITATIVE := {"verified", "operator_verified", "human_verified"}

  function StatusOf(p: Provenance): string {
    Or(Strip(Or(p.status, "unverified")), "unverified")
  }

  /** A digest is collision-free, so the text stands for it. */
  function DigestOf(text: string): string { text }

  function TextPart(evidence: string, p: Provenance): (r: map<string, string>)
    ensures r.Keys <= {"evidence", "evidence_sha256"}
  {
    if Strip(evidence) != "" then map["evidence" := evidence, "evidence_sha256" := Or(p.digest, DigestOf(evidence))]
    else map[]
  }

  function UrlPart(url: string): (r: map<string, string>)
    ensures r.Keys <= {"evidence_url", "evidence_source_url"}
  {
    if url != "" then map["evidence_url" := url, "evidence_source_url" := url] else map[]
  }

  function HarvestPart(p: Provenance): (r: map<string, string>)
    ensures r.Keys <= {"evidence_source_id", "evidence_retrieved_at", "evidence_adapter_version"}
  {
    (if p.sourceId != "" then map["evidence_source_id" := p.sourceId] else map[])
    + (if p.retrievedAt != "" then map["evidence_retrieved_at" := p.retrievedAt] else map[])
    + map["evidence_adapter_version" := Or(p.adapterVersion, "t66_adapter/<=1.0-legacy")]
  }

  function StatusPart(p: Provenance): (r: map<string, string>)
    ensures r.Keys <= {"evidence_verification_status", "evidence_authoritative"}
  {
    map[
      "evidence_verification_status" := StatusOf(p),
      "evidence_authoritative" := if StatusOf(p) in AUTHORITATIVE then "true" else "false"]
  }

  /** The evidence chain a record carries; an entry keeps what it has. */
  function EvidenceOf(evidence: string, p: Provenance, url: string): map<string, string> {
    TextPart(evidence, p) + UrlPart(url) + HarvestPart(p) + StatusPart(p)
  }

  function Default(o: Option<string>, v: string): Option<string> { if o.Some? then o else Some(v) }
}
