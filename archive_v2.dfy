/** Archives/appV2.py: Archives/AppT3.py with a text box instead of the name list. The box
    holds a chapter number or a chapter name; a name is looked up case-insensitively in
    the table built from chapters.json, and an unknown name stops the page. Generation
    runs only when the box resolves to a non-zero number, and then films the whole chapter
    as Archives/AppT3.py does. */
module ArchiveV2 {
  import opened Outcomes
  import opened PyText
  import opened Selection
  import opened Naming
  import opened Clips
  import ArchiveT3

  /** A press of the generate button, as a value: `Ok(None)` when the box leaves nothing
      to generate, `Ok(Some(v))` for a video. `input` is the text box, `chapters`
      chapters.json, the rest as in Archives/AppT3.py. */
  function Plan(input: string, chapters: seq<ChapterInfo>, reciter: string, arStore: Store,
                recitations: set<string>, recitation: real, clip: real): Result<Option<Video>>
    requires recitation >= 0.0 && clip >= 0.0
  {
    var resolved := ResolveSurah(input, NameToId(chapters));
    if resolved.Err? then Err(resolved.failure)
    else if !Generates(resolved) then Ok(None)
    else
      match ArchiveT3.FromNumber(resolved.value.value, reciter, arStore, recitations, recitation, clip)
      case Err(f) => Err(f)
      case Ok(v) => Ok(Some(v))
  }

  /** The script's steps in order: resolve the box, then, for a number, the steps of
      Archives/AppT3.py. */
  method Generate(input: string, chapters: seq<ChapterInfo>, reciter: string, arStore: Store,
                  recitations: set<string>, recitation: real, clip: real)
    returns (r: Result<Option<Video>>)
    requires recitation >= 0.0 && clip >= 0.0
    ensures r == Plan(input, chapters, reciter, arStore, recitations, recitation, clip)
  {
    var resolved := ResolveSurah(input, NameToId(chapters));
    if resolved.Err? {
      return Err(resolved.failure);
    }
    if resolved.value.None? || resolved.value.value == 0 {
      return Ok(None);
    }
    var v := ArchiveT3.GenerateNumber(resolved.value.value, reciter, arStore, recitations, recitation, clip);
    if v.Err? {
      return Err(v.failure);
    }
    r := Ok(Some(v.value));
  }

  /** A chapter name names the last record carrying it, whatever its case; when that
      record's id has verses and a recitation and the background has a length, the video
      films that chapter whole. */
  lemma NameProduces(input: string, chapters: seq<ChapterInfo>, i: int, reciter: string, arStore: Store,
                     recitations: set<string>, recitation: real, clip: real)
    requires recitation >= 0.0 && clip >= 0.0
    requires input != [] && !IsDigits(input)
    requires 0 <= i < |chapters| && Lower(chapters[i].name) == Lower(input) && chapters[i].id != 0
    requires forall j :: i < j < |chapters| ==> Lower(chapters[j].name) != Lower(input)
    requires Get(arStore, chapters[i].id) != [] && Path(reciter, AudioFile(chapters[i].id)) in recitations
    requires clip != 0.0
    ensures Plan(input, chapters, reciter, arStore, recitations, recitation, clip).Ok?
    ensures Plan(input, chapters, reciter, arStore, recitations, recitation, clip).value.Some?
    ensures ArchiveT3.Shows(Plan(input, chapters, reciter, arStore, recitations, recitation, clip).value.value,
                            chapters[i].id, Get(arStore, chapters[i].id), reciter, recitation, clip)
  {
    ResolveName(input, chapters);
    var n := chapters[i].id;
    ArchiveT3.NumberStops(n, reciter, arStore, recitations, recitation, clip);
    ArchiveT3.NumberProduces(n, reciter, arStore, recitations, recitation, clip);
  }

  /** A box of digits films the chapter with that number, read in decimal, leading zeros
      allowed, when it is not zero; a zero or an empty box generates nothing and reports
      nothing. */
  lemma DigitsProduce(input: string, chapters: seq<ChapterInfo>, reciter: string, arStore: Store,
                      recitations: set<string>, recitation: real, clip: real)
    requires recitation >= 0.0 && clip >= 0.0
    requires IsDigits(input)
    ensures DigitsValue(input) == 0 ==>
              Plan(input, chapters, reciter, arStore, recitations, recitation, clip) == Ok(None)
    ensures DigitsValue(input) != 0 ==>
              Plan(input, chapters, reciter, arStore, recitations, recitation, clip)
              == match ArchiveT3.FromNumber(DigitsValue(input), reciter, arStore, recitations, recitation, clip)
                 case Err(f) => Err(f)
                 case Ok(v) => Ok(Some(v))
  {
    ResolveDigits(input, NameToId(chapters));
  }

  /** The page stops with an error exactly when the box holds a name no record carries,
      or a number whose verses or recitation are missing or whose loop count divides by a
      background of length zero. */
  lemma PlanStops(input: string, chapters: seq<ChapterInfo>, reciter: string, arStore: Store,
                  recitations: set<string>, recitation: real, clip: real)
    requires recitation >= 0.0 && clip >= 0.0
    ensures var resolved := ResolveSurah(input, NameToId(chapters));
            Plan(input, chapters, reciter, arStore, recitations, recitation, clip).Err? <==>
              resolved.Err?
              || (Generates(resolved)
                  && (Get(arStore, resolved.value.value) == []
                      || Path(reciter, AudioFile(resolved.value.value)) !in recitations
                      || clip == 0.0))
    ensures Plan("", chapters, reciter, arStore, recitations, recitation, clip) == Ok(None)
  {
    var resolved := ResolveSurah(input, NameToId(chapters));
    if Generates(resolved) {
      ArchiveT3.NumberStops(resolved.value.value, reciter, arStore, recitations, recitation, clip);
    }
  }
}
