/** Archives/appV4.py: the chapter is picked from the numbered name list, its record is
    looked up in chapters.json, a free-text verse range is resolved leniently, the
    recitation is cut to the range and Arabic-only captions share it. */
module ArchiveV4 {
  import opened Outcomes
  import opened PyText
  import opened Selection
  import opened Timing
  import opened Naming
  import opened Clips

  /** The texts of verses start..end of chapter `n`, read one verse number at a time: an
      empty range reads nothing; otherwise a missing chapter raises KeyError and a verse
      past the chapter's list IndexError. */
  function RangeTexts(store: Store, n: int, start: int, end: int): (r: Result<seq<string>>)
    requires start >= 1
    ensures r.Err? <==> start <= end && (IntToString(n) !in store || end > |store[IntToString(n)]|)
    ensures r.Ok? ==> |r.value| == Max(0, end - start + 1)
    ensures r.Ok? ==> forall k :: 0 <= k < |r.value| ==>
                        r.value[k] == store[IntToString(n)][start - 1 + k]
  {
    if start > end then Ok([])
    else
      match Index(store, n)
      case Err(f) => Err(f)
      case Ok(texts) => if end > |texts| then Err(IndexOutOfRange) else Ok(texts[start - 1..end])
  }

  /** A press of the generate button, as a value. `lines` is surahs.txt, `choice` the
      option picked, `recitations` the audio files present (as paths under the
      recitations folder), `recitation` and `clip` the durations the video library
      reports for the recitation file and the background clip. */
  function Plan(lines: seq<string>, choice: int, chapters: seq<ChapterInfo>, text: string,
                reciter: string, store: Store, recitations: set<string>,
                recitation: real, clip: real): Result<Video>
    requires 0 <= choice < |SurahNamesOf(lines)|
    requires recitation >= 0.0 && clip >= 0.0
  {
    var n := Chosen(lines, choice);
    match FirstWithId(chapters, n)
    case None => Err(NoSuchChapter)
    case Some(chapter) =>
      var total := chapter.totalVerses;
      FromRange(n, total, LenientRange(text, total), reciter, store, recitations, recitation, clip)
  }

  /** The steps after the range is resolved: read the texts, check the recitation, cut it
      to the range, loop the background over the cut (a background of length zero divides
      by zero) and time the captions (no verse divides by zero). */
  function FromRange(n: int, total: nat, range: VerseRange, reciter: string, store: Store,
                     recitations: set<string>, recitation: real, clip: real): Result<Video>
    requires range.start >= 1 && (total >= 1 ==> range.start <= range.end <= total)
    requires recitation >= 0.0 && clip >= 0.0
  {
    match RangeTexts(store, n, range.start, range.end)
    case Err(f) => Err(f)
    case Ok(texts) =>
      var path := Path(reciter, AudioFile(n));
      if path !in recitations then Err(FileNotFound(path))
      else
        match AudioCut(recitation, total, range.start, range.end)
        case Err(f) => Err(f)
        case Ok(cut) =>
          AudioCutWithin(recitation, total, range.start, range.end);
          var audio := Length(cut);
          if clip == 0.0 then Err(ZeroDivision)
          else if |texts| == 0 then Err(ZeroDivision)
          else
            TiledCovers(audio, clip);
            Ok(Film(Excerpt(path, cut), audio, TiledBackground(audio, clip), ArabicLines(texts),
                    RangeOutputName(n, range.start, range.end, reciter)))
  }

  /** The script's steps in order: read the names, find the record, resolve the range,
      read the texts, check the recitation, cut it, extend the background copy by copy,
      then time the captions. */
  method Generate(lines: seq<string>, choice: int, chapters: seq<ChapterInfo>, text: string,
                  reciter: string, store: Store, recitations: set<string>,
                  recitation: real, clip: real) returns (r: Result<Video>)
    requires 0 <= choice < |SurahNamesOf(lines)|
    requires recitation >= 0.0 && clip >= 0.0
    ensures r == Plan(lines, choice, chapters, text, reciter, store, recitations, recitation, clip)
  {
    var names := ReadSurahNames(lines);
    var n := SurahOptions(names)[choice].1;
    var chapter := FirstWithId(chapters, n);
    if chapter.None? {
      return Err(NoSuchChapter);
    }
    var total := chapter.value.totalVerses;
    var range := LenientRange(text, total);
    var texts := RangeTexts(store, n, range.start, range.end);
    if texts.Err? {
      return Err(texts.failure);
    }
    var path := Path(reciter, AudioFile(n));
    if path !in recitations {
      return Err(FileNotFound(path));
    }
    var cut := AudioCut(recitation, total, range.start, range.end);
    if cut.Err? {
      return Err(cut.failure);
    }
    AudioCutWithin(recitation, total, range.start, range.end);
    var audio := Length(cut.value);
    if clip == 0.0 {
      return Err(ZeroDivision);
    }
    var copies := ConcatenateCopies(clip, Repetitions(audio, clip));
    if |texts.value| == 0 {
      return Err(ZeroDivision);
    }
    var captions := ScheduleCaptions(ArabicLines(texts.value), audio);
    r := Ok(Video(Excerpt(path, cut.value), audio, Tiled(copies, audio), captions,
                  RangeOutputName(n, range.start, range.end, reciter)));
  }

  /** Generation stops exactly when the chosen chapter has no record, has no verses, its
      selected verses cannot be read, the recitation file is missing, or the background
      has length zero. */
  lemma PlanStops(lines: seq<string>, choice: int, chapters: seq<ChapterInfo>, text: string,
                  reciter: string, store: Store, recitations: set<string>,
                  recitation: real, clip: real)
    requires 0 <= choice < |SurahNamesOf(lines)|
    requires recitation >= 0.0 && clip >= 0.0
    ensures var n := Chosen(lines, choice);
            var chapter := FirstWithId(chapters, n);
            Plan(lines, choice, chapters, text, reciter, store, recitations, recitation, clip).Err?
            <==> chapter.None? || chapter.value.totalVerses == 0
                 || RangeTexts(store, n, LenientRange(text, chapter.value.totalVerses).start,
                               LenientRange(text, chapter.value.totalVerses).end).Err?
                 || Path(reciter, AudioFile(n)) !in recitations
                 || clip == 0.0
  {
    var n := Chosen(lines, choice);
    var chapter := FirstWithId(chapters, n);
    if chapter.Some? && chapter.value.totalVerses >= 1 {
      var range := LenientRange(text, chapter.value.totalVerses);
      assert range.start <= range.end;
    }
  }

  /** What a video of the range `range` of chapter `n`, which has `total` verses, shows:
      one caption per selected verse showing that verse, in order; the soundtrack is the
      reciter's file for the chapter cut to the range; the background is the clip looped
      over the cut; background and captions fit the soundtrack; the file is named after
      chapter, resolved range and reciter. */
  ghost predicate Shows(v: Video, n: int, total: int, range: VerseRange, reciter: string, store: Store,
                        recitation: real, clip: real)
  {
    Consistent(v)
    && 1 <= range.start <= range.end <= total
    && IntToString(n) in store && range.end <= |store[IntToString(n)]|
    && |v.captions| == range.end - range.start + 1
    && (forall k :: 0 <= k < |v.captions| ==>
          v.captions[k].item == Line(store[IntToString(n)][range.start - 1 + k]))
    && recitation >= 0.0
    && v.audio == Excerpt(Path(reciter, AudioFile(n)), AudioCut(recitation, total, range.start, range.end).value)
    && v.length == Length(v.audio.cut)
    && clip > 0.0 && v.length >= 0.0 && v.background == TiledBackground(v.length, clip)
    && v.output == RangeOutputName(n, range.start, range.end, reciter)
  }

  /** A generated video shows the resolved range of the chosen chapter. */
  lemma PlanProduces(lines: seq<string>, choice: int, chapters: seq<ChapterInfo>, text: string,
                     reciter: string, store: Store, recitations: set<string>,
                     recitation: real, clip: real)
    requires 0 <= choice < |SurahNamesOf(lines)|
    requires recitation >= 0.0 && clip >= 0.0
    requires Plan(lines, choice, chapters, text, reciter, store, recitations, recitation, clip).Ok?
    ensures FirstWithId(chapters, Chosen(lines, choice)).Some?
    ensures var total := FirstWithId(chapters, Chosen(lines, choice)).value.totalVerses;
            Shows(Plan(lines, choice, chapters, text, reciter, store, recitations, recitation, clip).value,
                  Chosen(lines, choice), total, LenientRange(text, total), reciter, store, recitation, clip)
  {
    var n := Chosen(lines, choice);
    var total := FirstWithId(chapters, n).value.totalVerses;
    var range := LenientRange(text, total);
    FromRangeProduces(n, total, range, reciter, store, recitations, recitation, clip);
  }

  lemma FromRangeProduces(n: int, total: nat, range: VerseRange, reciter: string, store: Store,
                          recitations: set<string>, recitation: real, clip: real)
    requires range.start >= 1 && (total >= 1 ==> range.start <= range.end <= total)
    requires recitation >= 0.0 && clip >= 0.0
    requires FromRange(n, total, range, reciter, store, recitations, recitation, clip).Ok?
    ensures Shows(FromRange(n, total, range, reciter, store, recitations, recitation, clip).value,
                  n, total, range, reciter, store, recitation, clip)
  {
    FromRangeFilm(n, total, range, reciter, store, recitations, recitation, clip);
    var v := FromRange(n, total, range, reciter, store, recitations, recitation, clip).value;
    TextsShown(v, n, total, range, reciter, store, recitation, clip);
  }

  /** A consistent video with the range's cut, looped clip and name, whose captions are
      the range's texts, shows that range. */
  lemma TextsShown(v: Video, n: int, total: nat, range: VerseRange, reciter: string, store: Store,
                   recitation: real, clip: real)
    requires 1 <= range.start <= range.end <= total
    requires recitation >= 0.0 && clip > 0.0
    requires RangeTexts(store, n, range.start, range.end).Ok?
    requires |RangeTexts(store, n, range.start, range.end).value| == range.end - range.start + 1
    requires Consistent(v)
    requires v.audio == Excerpt(Path(reciter, AudioFile(n)), AudioCut(recitation, total, range.start, range.end).value)
    requires v.length == Length(v.audio.cut) && v.length >= 0.0
    requires v.background == TiledBackground(v.length, clip)
    requires v.output == RangeOutputName(n, range.start, range.end, reciter)
    requires var items := ArabicLines(RangeTexts(store, n, range.start, range.end).value);
             |v.captions| == |items| && forall k :: 0 <= k < |items| ==> v.captions[k].item == items[k]
    ensures Shows(v, n, total, range, reciter, store, recitation, clip)
  {
    RangeLines(store, n, range.start, range.end);
  }

  /** The captions of a range read without error show the stored texts of its verses. */
  lemma RangeLines(store: Store, n: int, start: int, end: int)
    requires start >= 1 && RangeTexts(store, n, start, end).Ok?
    ensures var lines := ArabicLines(RangeTexts(store, n, start, end).value);
            forall k :: 0 <= k < |lines| ==> lines[k] == Line(store[IntToString(n)][start - 1 + k])
  {
  }

  /** A successful run past the range is the film of the range's texts over its cut. */
  lemma FromRangeFilm(n: int, total: nat, range: VerseRange, reciter: string, store: Store,
                      recitations: set<string>, recitation: real, clip: real)
    requires range.start >= 1 && (total >= 1 ==> range.start <= range.end <= total)
    requires recitation >= 0.0 && clip >= 0.0
    requires FromRange(n, total, range, reciter, store, recitations, recitation, clip).Ok?
    ensures clip > 0.0
    ensures total >= 1 && RangeTexts(store, n, range.start, range.end).Ok?
    ensures |RangeTexts(store, n, range.start, range.end).value| == range.end - range.start + 1
    ensures var cut := AudioCut(recitation, total, range.start, range.end).value;
            var audio := Length(cut);
            audio >= 0.0
            && FromRange(n, total, range, reciter, store, recitations, recitation, clip)
               == Ok(Film(Excerpt(Path(reciter, AudioFile(n)), cut), audio, TiledBackground(audio, clip),
                          ArabicLines(RangeTexts(store, n, range.start, range.end).value),
                          RangeOutputName(n, range.start, range.end, reciter)))
  {
    AudioCutWithin(recitation, total, range.start, range.end);
    var audio := Length(AudioCut(recitation, total, range.start, range.end).value);
    TiledCovers(audio, clip);
  }

  /** Blank range text films the whole chapter: every verse, over the whole recitation. */
  lemma PlanWholeChapter(lines: seq<string>, choice: int, chapters: seq<ChapterInfo>, text: string,
                         reciter: string, store: Store, recitations: set<string>,
                         recitation: real, clip: real)
    requires 0 <= choice < |SurahNamesOf(lines)|
    requires recitation >= 0.0 && clip >= 0.0
    requires IsBlank(text)
    requires Plan(lines, choice, chapters, text, reciter, store, recitations, recitation, clip).Ok?
    ensures var v := Plan(lines, choice, chapters, text, reciter, store, recitations, recitation, clip).value;
            var n := Chosen(lines, choice);
            |v.captions| == FirstWithId(chapters, n).value.totalVerses
            && v.audio.cut == Cut(0.0, recitation) && v.length == recitation
  {
    var n := Chosen(lines, choice);
    var total := FirstWithId(chapters, n).value.totalVerses;
    LenientBlank(text, total);
    AudioCutWhole(recitation, total);
  }
}
