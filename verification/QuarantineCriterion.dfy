// The criterion of the quarantine, phrase by phrase, and which files its runs can read.
module QuarantineCriterion {
  import Text
  import ValueLaws
  import opened Quarantine

  /** The seven phrases a harvested page betrays itself by. */
  predicate Telltale(phrase: string) {
    || phrase == "dtcdocs.com"
    || phrase == "frequently asked questions"
    || phrase == "diagnostic & repair procedure"
    || phrase == "meaning, causes & fix"
    || phrase == "is this a false alarm"
    || phrase == "we use cookies"
    || phrase == "by continuing, you agree"
  }

  lemma {:induction false} TelltalesAre(phrase: string)
    ensures Telltale(phrase) <==> phrase in PHRASES
    ensures "" !in PHRASES
  {
    assert PHRASES[0] == "dtcdocs.com" && PHRASES[1] == "frequently asked questions";
    assert PHRASES[2] == "diagnostic & repair procedure" && PHRASES[3] == "meaning, causes & fix";
    assert PHRASES[4] == "is this a false alarm" && PHRASES[5] == "we use cookies";
    assert PHRASES[6] == "by continuing, you agree";
  }

  /** The text holds a spelling of a telltale phrase, in any case. */
  ghost predicate Betrayed(json: string) {
    exists before, spelled, after :: json == before + spelled + after && Telltale(Text.Lower(spelled))
  }

  /** A block is dirty exactly if it is an object and its text betrays it. */
  lemma {:induction false} DirtyIff(b: Block)
    ensures Hit(ByContent, b) <==> b.Object? && Betrayed(b.json)
  {
    hide Text.MentionsAny, Text.Lower, Telltale;
    if b.Object? && Text.MentionsAny(b.json, PHRASES) {
      TelltalesAre("");
      var before, spelled, after := ValueLaws.MentionedIsSpelled(b.json, PHRASES);
      TelltalesAre(Text.Lower(spelled));
      assert b.json == before + spelled + after && Telltale(Text.Lower(spelled));
    }
    if Betrayed(b.json) {
      var before, spelled, after :| b.json == before + spelled + after && Telltale(Text.Lower(spelled));
      TelltalesAre(Text.Lower(spelled));
      TelltalesAre("");
      ValueLaws.LowerLength(spelled);
      ValueLaws.SpelledIsMentioned(before, spelled, after, PHRASES);
    }
  }

  /** The other scan takes the blocks that bear the old mark, whatever they say. */
  lemma {:induction false} MarkedIff(b: Block)
    ensures Hit(ByMark, b) <==> b.Object? && b.quarantined
  {
  }

  /** A run can read a file that is not there, and a document all of whose records are objects. */
  lemma {:induction false} ReadableIff(file: File)
    ensures Readable(file) <==>
      match file
      case Missing => true
      case Corrupt => false
      case Document(items) => forall item :: item in items ==> item.Stored?
  {
  }

  /** Where no block is dirty by content, a run leaves the file alone; it only takes out what bears the old mark. */
  lemma {:induction false} MarkedAlone(f: Files, keys: seq<string>, cut: Cut)
    requires FoundIn(ByContent, f.spns, keys) == []
    ensures Run(f, keys, cut).file == f.file
    ensures Run(f, keys, cut).spns ==
      if cut.Never? && Readable(f.file) && FoundIn(ByMark, f.spns, keys) != []
      then Removed(f.spns, Marks([])) else f.spns
  {
    hide FoundIn, Removed, Readable;
  }
}
