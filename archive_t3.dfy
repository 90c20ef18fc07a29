/** Archives/AppT3.py: a Streamlit page over the whole-Quran Arabic file. The chapter is
    picked from the numbered name list and must have a record in chapters.json; the whole
    chapter is filmed with Arabic-only captions over the plain `NNN.mp3` recitation, the
    background placed copy by copy, and the file is named after chapter and reciter. */
module ArchiveT3 {
  import opened Outcomes
  import opened PyText
  import opened Selection
  import opened Timing
  import opened Naming
  import opened Clips

  /** A press of the generate button, as a value. `lines` is surahs.txt, `choice` the
      option picked, `chapters` chapters.json, `reciter` the folder picked, `arStore`
      quran_ar.json (chapter number to the `text` fields of its verses), `recitations`
      the audio files present (as paths under the recitations folder), `recitation` and
      `clip` the durations the video library reports. */
  function Plan(lines: seq<string>, choice: int, chapters: seq<ChapterInfo>, reciter: string,
                arStore: Store, recitations: set<string>, recitation: real, clip: real): Result<Video>
    requires 0 <= choice < |SurahNamesOf(lines)|
    requires recitation >= 0.0 && clip >= 0.0
  {
    var n := Chosen(lines, choice);
    if FirstWithId(chapters, n).None? then Err(NoSuchChapter)
    else FromNumber(n, reciter, arStore, recitations, recitation, clip)
  }

  /** The steps after the chapter number is known, shared with Archives/appV2.py: the
      verses by key, the recitation file, the loop count (a background of length zero
      divides by zero), the caption slot (no verse divides by zero). */
  function FromNumber(n: int, reciter: string, arStore: Store, recitations: set<string>,
                      recitation: real, clip: real): Result<Video>
    requires recitation >= 0.0 && clip >= 0.0
  {
    match Index(arStore, n)
    case Err(f) => Err(f)
    case Ok(ar) =>
      var path := Path(reciter, AudioFile(n));
      if path !in recitations then Err(FileNotFound(path))
      else if clip == 0.0 then Err(ZeroDivision)
      else if |ar| == 0 then Err(ZeroDivision)
      else Ok(Assemble(n, ar, reciter, recitation, clip))
  }

  /** The whole recitation over copies of the background placed end to end, one Arabic
      caption per verse. */
  function Assemble(n: int, ar: seq<string>, reciter: string, recitation: real, clip: real): Video
    requires recitation >= 0.0 && clip > 0.0
  {
    TiledCovers(recitation, clip);
    Film(Whole(Path(reciter, AudioFile(n))), recitation, TiledBackground(recitation, clip),
         ArabicLines(ar), ChapterOutputName(n, reciter))
  }

  /** The script's steps in order: read the names, find the record, read the verses,
      check the recitation, place the background copies, time the captions. */
  method Generate(lines: seq<string>, choice: int, chapters: seq<ChapterInfo>, reciter: string,
                  arStore: Store, recitations: set<string>, recitation: real, clip: real)
    returns (r: Result<Video>)
    requires 0 <= choice < |SurahNamesOf(lines)|
    requires recitation >= 0.0 && clip >= 0.0
    ensures r == Plan(lines, choice, chapters, reciter, arStore, recitations, recitation, clip)
  {
    var names := ReadSurahNames(lines);
    var n := SurahOptions(names)[choice].1;
    var chapter := FirstWithId(chapters, n);
    if chapter.None? {
      return Err(NoSuchChapter);
    }
    r := GenerateNumber(n, reciter, arStore, recitations, recitation, clip);
  }

  /** The steps after the chapter number is known: read the verses, check the recitation,
      place the background copies, time the captions. */
  method GenerateNumber(n: int, reciter: string, arStore: Store, recitations: set<string>,
                        recitation: real, clip: real) returns (r: Result<Video>)
    requires recitation >= 0.0 && clip >= 0.0
    ensures r == FromNumber(n, reciter, arStore, recitations, recitation, clip)
  {
    var ar := Index(arStore, n);
    if ar.Err? {
      return Err(ar.failure);
    }
    var path := Path(reciter, AudioFile(n));
    if path !in recitations {
      return Err(FileNotFound(path));
    }
    if clip == 0.0 {
      return Err(ZeroDivision);
    }
    var copies := PlaceCopies(clip, Repetitions(recitation, clip));
    if |ar.value| == 0 {
      return Err(ZeroDivision);
    }
    var captions := ScheduleCaptions(ArabicLines(ar.value), recitation);
    TiledCovers(recitation, clip);
    r := Ok(Video(Whole(path), recitation, Tiled(copies, recitation), captions, ChapterOutputName(n, reciter)));
  }

  /** Generation stops exactly when the picked chapter has no record, the Arabic file has
      no entry or no verses for it, the reciter's `NNN.mp3` is missing, or the background
      has length zero. */
  lemma PlanStops(lines: seq<string>, choice: int, chapters: seq<ChapterInfo>, reciter: string,
                  arStore: Store, recitations: set<string>, recitation: real, clip: real)
    requires 0 <= choice < |SurahNamesOf(lines)|
    requires recitation >= 0.0 && clip >= 0.0
    ensures Plan(lines, choice, chapters, reciter, arStore, recitations, recitation, clip).Err? <==>
              FirstWithId(chapters, choice + 1).None? || Get(arStore, choice + 1) == []
              || Path(reciter, AudioFile(choice + 1)) !in recitations || clip == 0.0
    ensures FirstWithId(chapters, choice + 1).None? ==>
              Plan(lines, choice, chapters, reciter, arStore, recitations, recitation, clip) == Err(NoSuchChapter)
  {
    NumberStops(choice + 1, reciter, arStore, recitations, recitation, clip);
  }

  /** Once the number is known, generation stops exactly when the Arabic file has no entry
      (a KeyError) or no verses for it, the recitation file is missing, or the background
      has length zero (both divisions by zero). */
  lemma NumberStops(n: int, reciter: string, arStore: Store, recitations: set<string>,
                    recitation: real, clip: real)
    requires recitation >= 0.0 && clip >= 0.0
    ensures FromNumber(n, reciter, arStore, recitations, recitation, clip).Err? <==>
              Get(arStore, n) == [] || Path(reciter, AudioFile(n)) !in recitations || clip == 0.0
    ensures FromNumber(n, reciter, arStore, recitations, recitation, clip).Err? ==>
              FromNumber(n, reciter, arStore, recitations, recitation, clip).failure
              == if IntToString(n) !in arStore then MissingKey
                 else if Path(reciter, AudioFile(n)) !in recitations then FileNotFound(Path(reciter, AudioFile(n)))
                 else ZeroDivision
  {
  }

  /** What a video of chapter `n` with Arabic verses `ar` shows: one caption per verse,
      caption k showing verse k alone; the whole `NNN.mp3` of the reciter over a
      background that covers it; a file named after chapter and reciter. */
  ghost predicate Shows(v: Video, n: int, ar: seq<string>, reciter: string, recitation: real, clip: real)
  {
    && recitation >= 0.0 && clip > 0.0
    && Consistent(v)
    && v.audio == Whole(Path(reciter, AudioFile(n)))
    && v.length == recitation
    && v.background == TiledBackground(recitation, clip)
    && |v.captions| == |ar| >= 1
    && (forall k :: 0 <= k < |v.captions| ==> v.captions[k].item == Line(ar[k]))
    && v.output == ChapterOutputName(n, reciter)
  }

  /** A generated video films the whole chapter at position `choice` + 1 of the list. */
  lemma PlanProduces(lines: seq<string>, choice: int, chapters: seq<ChapterInfo>, reciter: string,
                     arStore: Store, recitations: set<string>, recitation: real, clip: real)
    requires 0 <= choice < |SurahNamesOf(lines)|
    requires recitation >= 0.0 && clip >= 0.0
    requires Plan(lines, choice, chapters, reciter, arStore, recitations, recitation, clip).Ok?
    ensures FirstWithId(chapters, choice + 1).Some?
    ensures Shows(Plan(lines, choice, chapters, reciter, arStore, recitations, recitation, clip).value,
                  choice + 1, Get(arStore, choice + 1), reciter, recitation, clip)
  {
    NumberProduces(choice + 1, reciter, arStore, recitations, recitation, clip);
  }

  /** Once the number is known, a generated video films the whole chapter. */
  lemma NumberProduces(n: int, reciter: string, arStore: Store, recitations: set<string>,
                       recitation: real, clip: real)
    requires recitation >= 0.0 && clip >= 0.0
    requires FromNumber(n, reciter, arStore, recitations, recitation, clip).Ok?
    ensures Shows(FromNumber(n, reciter, arStore, recitations, recitation, clip).value,
                  n, Get(arStore, n), reciter, recitation, clip)
  {
    AssembleShows(n, Get(arStore, n), reciter, recitation, clip);
  }

  lemma AssembleShows(n: int, ar: seq<string>, reciter: string, recitation: real, clip: real)
    requires recitation >= 0.0 && clip > 0.0 && |ar| >= 1
    ensures Shows(Assemble(n, ar, reciter, recitation, clip), n, ar, reciter, recitation, clip)
  {
  }
}
