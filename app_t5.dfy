/** App/AppT5.py: the chapter is a number from a bounded input, both verse lists are taken
    from the JSON stores with an empty default, the range text must be two integers or it
    means the whole chapter, the records are read by index, and the recitation is the
    first listed file that starts with the padded chapter number. */
module AppT5 {
  import opened Outcomes
  import opened PyText
  import opened Selection
  import opened Pairing
  import opened Timing
  import opened Naming
  import opened Clips

  /** A press of the generate button, as a value. `n` is the number input (bounded to
      1..114 by the widget), `shape` the reshaping and reordering of Arabic text for
      display, `listing` the reciter's folder as the operating system lists it,
      `recitation` and `clip` the durations the video library reports. */
  function Plan(n: int, text: string, reciter: string, arStore: Store, enStore: Store,
                shape: string -> string, listing: seq<string>,
                recitation: real, clip: real): Result<Video>
    requires 1 <= n <= MaxSurah
    requires recitation >= 0.0 && clip >= 0.0
  {
    var ar := Get(arStore, n);
    var en := Get(enStore, n);
    if ar == [] || en == [] then Err(SurahNotFound)
    else FromRange(n, ar, en, TwoPartRange(text, |ar|), reciter, shape, listing, recitation, clip)
  }

  /** The steps after the range is resolved: read the records by index, find the
      recitation, cut it, loop the background over the cut and time the captions. A
      background of length zero fails when the loops are counted; an inverted range reads
      no records and fails when the captions are timed. */
  function FromRange(n: int, ar: seq<string>, en: seq<string>, range: VerseRange, reciter: string,
                     shape: string -> string, listing: seq<string>,
                     recitation: real, clip: real): Result<Video>
    requires range.start >= 1 && range.end <= |ar|
    requires recitation >= 0.0 && clip >= 0.0
  {
    match IndexedRecords(ar, en, range.start, range.end, shape)
    case Err(f) => Err(f)
    case Ok(verses) =>
      match FirstMatch(listing, Pad3(n), Mp3)
      case None => Err(AudioNotFound)
      case Some(file) =>
        if clip == 0.0 then Err(ZeroDivision)            // the loop count divides by the clip
        else if |verses| == 0 then Err(ZeroDivision)     // the caption time divides by the verses
        else Ok(Assemble(n, ar, en, range, file, reciter, shape, recitation, clip))
  }

  /** The last steps of a run that has its records and its file: cut the recitation, loop
      the background over the cut and time one caption per record. */
  function Assemble(n: int, ar: seq<string>, en: seq<string>, range: VerseRange, file: string,
                    reciter: string, shape: string -> string, recitation: real, clip: real): Video
    requires 1 <= range.start <= range.end <= Min(|ar|, |en|)
    requires recitation >= 0.0 && clip > 0.0
  {
    var cut := AudioCut(recitation, |ar|, range.start, range.end).value;
    AudioCutWithin(recitation, |ar|, range.start, range.end);
    var audio := Length(cut);
    TiledCovers(audio, clip);
    Film(Excerpt(Path(reciter, file), cut), audio, TiledBackground(audio, clip),
         Lines(IndexedRecords(ar, en, range.start, range.end, shape).value),
         RangeOnlyOutputName(n, range.start, range.end))
  }

  /** The script's steps in order, with the folder scan and the caption loop. */
  method Generate(n: int, text: string, reciter: string, arStore: Store, enStore: Store,
                  shape: string -> string, listing: seq<string>,
                  recitation: real, clip: real) returns (r: Result<Video>)
    requires 1 <= n <= MaxSurah
    requires recitation >= 0.0 && clip >= 0.0
    ensures r == Plan(n, text, reciter, arStore, enStore, shape, listing, recitation, clip)
  {
    var ar := Get(arStore, n);
    var en := Get(enStore, n);
    if ar == [] || en == [] {
      return Err(SurahNotFound);
    }
    var range := TwoPartRange(text, |ar|);
    var verses := IndexedRecords(ar, en, range.start, range.end, shape);
    if verses.Err? {
      return Err(verses.failure);
    }
    var file := FindAudio(listing, Pad3(n), Mp3);
    if file.None? {
      return Err(AudioNotFound);
    }
    if clip == 0.0 {
      return Err(ZeroDivision);
    }
    if |verses.value| == 0 {
      return Err(ZeroDivision);
    }
    var cut := AudioCut(recitation, |ar|, range.start, range.end).value;
    AudioCutWithin(recitation, |ar|, range.start, range.end);
    var audio := Length(cut);
    var captions := ScheduleCaptions(Lines(verses.value), audio);
    TiledCovers(audio, clip);
    r := Ok(Video(Excerpt(Path(reciter, file.value), cut), audio, TiledBackground(audio, clip), captions,
                  RangeOnlyOutputName(n, range.start, range.end)));
  }

  /** Generation stops exactly when either language has no verses for the chapter, the
      range runs past the translation, no listed file matches, the background has length
      zero, or the range is inverted. */
  lemma PlanStops(n: int, text: string, reciter: string, arStore: Store, enStore: Store,
                  shape: string -> string, listing: seq<string>,
                  recitation: real, clip: real)
    requires 1 <= n <= MaxSurah
    requires recitation >= 0.0 && clip >= 0.0
    ensures Plan(n, text, reciter, arStore, enStore, shape, listing, recitation, clip).Err? <==>
              Get(arStore, n) == [] || Get(enStore, n) == []
              || TwoPartRange(text, |Get(arStore, n)|).end > |Get(enStore, n)|
              || FirstMatch(listing, Pad3(n), Mp3).None?
              || clip == 0.0
              || TwoPartRange(text, |Get(arStore, n)|).start > TwoPartRange(text, |Get(arStore, n)|).end
    ensures Get(arStore, n) == [] || Get(enStore, n) == [] ==>
              Plan(n, text, reciter, arStore, enStore, shape, listing, recitation, clip) == Err(SurahNotFound)
  {
    var ar, en := Get(arStore, n), Get(enStore, n);
    if ar != [] && en != [] {
      FromRangeStops(n, ar, en, TwoPartRange(text, |ar|), reciter, shape, listing, recitation, clip);
    }
  }

  /** Past the range, generation stops exactly when the range runs past the translation,
      no listed file matches, the background has length zero, or the range is inverted. */
  lemma FromRangeStops(n: int, ar: seq<string>, en: seq<string>, range: VerseRange, reciter: string,
                       shape: string -> string, listing: seq<string>,
                       recitation: real, clip: real)
    requires range.start >= 1 && range.end <= |ar|
    requires recitation >= 0.0 && clip >= 0.0
    ensures FromRange(n, ar, en, range, reciter, shape, listing, recitation, clip).Err? <==>
              range.end > |en| || FirstMatch(listing, Pad3(n), Mp3).None? || clip == 0.0
              || range.start > range.end
  {
    var r := IndexedRecords(ar, en, range.start, range.end, shape);
    if r.Ok? && FirstMatch(listing, Pad3(n), Mp3).Some? {
      assert |r.value| == Max(0, range.end - range.start + 1);
    }
  }

  /** What a generated video shows for chapter `n` with verse lists `ar` and `en` and
      resolved `range`, its audio taken from `file`: caption k shows shaped Arabic verse
      start+k above its translation, one caption per verse of the range, over the cut of
      the range; the background is the clip of length `clip` looped over the cut;
      background and captions fit the soundtrack; the file is named after chapter and
      range. */
  ghost predicate Shows(v: Video, n: int, ar: seq<string>, en: seq<string>, range: VerseRange,
                        file: string, reciter: string, shape: string -> string,
                        recitation: real, clip: real)
  {
    Consistent(v)
    && 1 <= range.start <= range.end <= Min(|ar|, |en|)
    && |v.captions| == range.end - range.start + 1
    && (forall k :: 0 <= k < |v.captions| ==>
          v.captions[k].item
          == Line(CaptionText(Verse(shape(ar[range.start - 1 + k]), en[range.start - 1 + k]))))
    && v.audio == Excerpt(Path(reciter, file), AudioCut(recitation, |ar|, range.start, range.end).value)
    && v.length == Length(v.audio.cut)
    && clip > 0.0 && v.length >= 0.0 && v.background == TiledBackground(v.length, clip)
    && v.output == RangeOnlyOutputName(n, range.start, range.end)
  }

  /** A generated video shows the resolved range of the chapter, with the first matching
      recitation file. */
  lemma PlanProduces(n: int, text: string, reciter: string, arStore: Store, enStore: Store,
                     shape: string -> string, listing: seq<string>,
                     recitation: real, clip: real)
    requires 1 <= n <= MaxSurah
    requires recitation >= 0.0 && clip >= 0.0
    requires Plan(n, text, reciter, arStore, enStore, shape, listing, recitation, clip).Ok?
    ensures FirstMatch(listing, Pad3(n), Mp3).Some?
    ensures Shows(Plan(n, text, reciter, arStore, enStore, shape, listing, recitation, clip).value,
                  n, Get(arStore, n), Get(enStore, n), TwoPartRange(text, |Get(arStore, n)|),
                  FirstMatch(listing, Pad3(n), Mp3).value, reciter, shape, recitation, clip)
  {
    var ar := Get(arStore, n);
    var en := Get(enStore, n);
    var range := TwoPartRange(text, |ar|);
    assert Plan(n, text, reciter, arStore, enStore, shape, listing, recitation, clip)
           == FromRange(n, ar, en, range, reciter, shape, listing, recitation, clip);
    FromRangeProduces(n, ar, en, range, reciter, shape, listing, recitation, clip);
  }

  lemma FromRangeProduces(n: int, ar: seq<string>, en: seq<string>, range: VerseRange,
                          reciter: string, shape: string -> string, listing: seq<string>,
                          recitation: real, clip: real)
    requires range.start >= 1 && range.end <= |ar|
    requires recitation >= 0.0 && clip >= 0.0
    requires FromRange(n, ar, en, range, reciter, shape, listing, recitation, clip).Ok?
    ensures FirstMatch(listing, Pad3(n), Mp3).Some?
    ensures Shows(FromRange(n, ar, en, range, reciter, shape, listing, recitation, clip).value,
                  n, ar, en, range, FirstMatch(listing, Pad3(n), Mp3).value, reciter, shape,
                  recitation, clip)
  {
    var file := FirstMatch(listing, Pad3(n), Mp3).value;
    assert 1 <= range.start <= range.end <= Min(|ar|, |en|);
    AssembleShows(n, ar, en, range, file, reciter, shape, recitation, clip);
  }

  lemma AssembleShows(n: int, ar: seq<string>, en: seq<string>, range: VerseRange, file: string,
                      reciter: string, shape: string -> string, recitation: real, clip: real)
    requires 1 <= range.start <= range.end <= Min(|ar|, |en|)
    requires recitation >= 0.0 && clip > 0.0
    ensures Shows(Assemble(n, ar, en, range, file, reciter, shape, recitation, clip),
                  n, ar, en, range, file, reciter, shape, recitation, clip)
  {
    AudioCutWithin(recitation, |ar|, range.start, range.end);
    var audio := Length(AudioCut(recitation, |ar|, range.start, range.end).value);
    RecordLines(ar, en, range.start, range.end, shape);
    TiledCovers(audio, clip);
    var v := Film(Excerpt(Path(reciter, file), AudioCut(recitation, |ar|, range.start, range.end).value),
                  audio, TiledBackground(audio, clip),
                  Lines(IndexedRecords(ar, en, range.start, range.end, shape).value),
                  RangeOnlyOutputName(n, range.start, range.end));
    assert v == Assemble(n, ar, en, range, file, reciter, shape, recitation, clip);
  }

  /** The captions of the records read by index, verse by verse. */
  lemma RecordLines(ar: seq<string>, en: seq<string>, start: int, end: int, shape: string -> string)
    requires 1 <= start <= end <= Min(|ar|, |en|)
    ensures IndexedRecords(ar, en, start, end, shape).Ok?
    ensures var c := Lines(IndexedRecords(ar, en, start, end, shape).value);
            |c| == end - start + 1
            && forall k :: 0 <= k < |c| ==>
                 c[k] == Line(CaptionText(Verse(shape(ar[start - 1 + k]), en[start - 1 + k])))
  {
  }

  /** Blank range text films the whole chapter over the whole recitation, when the
      translation is at least as long as the Arabic. */
  lemma PlanWholeChapter(n: int, text: string, reciter: string, arStore: Store, enStore: Store,
                         shape: string -> string, listing: seq<string>,
                         recitation: real, clip: real)
    requires 1 <= n <= MaxSurah
    requires recitation >= 0.0 && clip >= 0.0
    requires IsBlank(text)
    requires Plan(n, text, reciter, arStore, enStore, shape, listing, recitation, clip).Ok?
    ensures var v := Plan(n, text, reciter, arStore, enStore, shape, listing, recitation, clip).value;
            |v.captions| == |Get(arStore, n)| <= |Get(enStore, n)|
            && v.audio.cut == Cut(0.0, recitation) && v.length == recitation
  {
    var ar := Get(arStore, n);
    TwoPartBlank(text, |ar|);
    AudioCutWhole(recitation, |ar|);
    PlanProduces(n, text, reciter, arStore, enStore, shape, listing, recitation, clip);
  }

  /** When the folder holds the plain `NNN.mp3` file the recitation is never missing, and
      the file used starts with the chapter's three digits. */
  lemma PlainFileFound(n: int, text: string, reciter: string, arStore: Store, enStore: Store,
                       shape: string -> string, listing: seq<string>,
                       recitation: real, clip: real)
    requires 1 <= n <= MaxSurah
    requires recitation >= 0.0 && clip >= 0.0
    requires AudioFile(n) in listing
    ensures Plan(n, text, reciter, arStore, enStore, shape, listing, recitation, clip) != Err(AudioNotFound)
    ensures ParseInt(FirstMatch(listing, Pad3(n), Mp3).value[..3]) == Some(n)
  {
    PlainFileIsFound(listing, n);
  }
}
