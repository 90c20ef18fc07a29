/** Archives/appV1.py: the first Streamlit page over the whole-Quran files. The chapter is
    a number box bounded to 1..114; the whole chapter is filmed with Arabic-only captions
    over the reciter's plain `NNN.mp3`, the background is the video library's own loop of
    the picked clip, and the file is named after chapter and reciter. */
module ArchiveV1 {
  import opened Outcomes
  import opened PyText
  import opened Selection
  import opened Timing
  import opened Naming
  import opened Clips

  /** A press of the generate button, as a value. `n` is the number box, `reciter` and
      `background` the picks from the folder listings, `arStore` quran_ar.json (chapter
      number to the `text` fields of its verses), `recitations` the audio files present
      (as paths under the recitations folder), `backgrounds` the files of the backgrounds
      folder, `recitation` and `clip` the durations the video library reports. */
  function Plan(n: int, reciter: string, background: string, arStore: Store, recitations: set<string>,
                backgrounds: set<string>, recitation: real, clip: real): Result<Video>
    requires 1 <= n <= MaxSurah
    requires recitation >= 0.0
  {
    match Index(arStore, n)
    case Err(f) => Err(f)
    case Ok(ar) =>
      var path := Path(reciter, AudioFile(n));
      if path !in recitations then Err(FileNotFound(path))
      else if background !in backgrounds then Err(FileNotFound(background))
      else if |ar| == 0 then Err(ZeroDivision)
      else Ok(Assemble(n, ar, reciter, recitation, clip))
  }

  /** The whole recitation over the background looped to its length, one Arabic caption
      per verse. */
  function Assemble(n: int, ar: seq<string>, reciter: string, recitation: real, clip: real): Video
    requires recitation >= 0.0
  {
    Film(Whole(Path(reciter, AudioFile(n))), recitation, Looped(clip, recitation),
         ArabicLines(ar), ChapterOutputName(n, reciter))
  }

  /** The script's steps in order: read the verses, check both files, loop the
      background, time the captions. */
  method Generate(n: int, reciter: string, background: string, arStore: Store, recitations: set<string>,
                  backgrounds: set<string>, recitation: real, clip: real) returns (r: Result<Video>)
    requires 1 <= n <= MaxSurah
    requires recitation >= 0.0
    ensures r == Plan(n, reciter, background, arStore, recitations, backgrounds, recitation, clip)
  {
    var ar := Index(arStore, n);
    if ar.Err? {
      return Err(ar.failure);
    }
    var path := Path(reciter, AudioFile(n));
    if path !in recitations {
      return Err(FileNotFound(path));
    }
    if background !in backgrounds {
      return Err(FileNotFound(background));
    }
    if |ar.value| == 0 {
      return Err(ZeroDivision);
    }
    var captions := ScheduleCaptions(ArabicLines(ar.value), recitation);
    r := Ok(Video(Whole(path), recitation, Looped(clip, recitation), captions, ChapterOutputName(n, reciter)));
  }

  /** Generation stops exactly when the Arabic file has no entry or no verses for the
      chapter, or either file is missing; the first of these in the script's order is the
      one reported. */
  lemma PlanStops(n: int, reciter: string, background: string, arStore: Store, recitations: set<string>,
                  backgrounds: set<string>, recitation: real, clip: real)
    requires 1 <= n <= MaxSurah
    requires recitation >= 0.0
    ensures Plan(n, reciter, background, arStore, recitations, backgrounds, recitation, clip).Err? <==>
              Get(arStore, n) == [] || Path(reciter, AudioFile(n)) !in recitations || background !in backgrounds
    ensures Plan(n, reciter, background, arStore, recitations, backgrounds, recitation, clip).Err? ==>
              Plan(n, reciter, background, arStore, recitations, backgrounds, recitation, clip).failure
              == if IntToString(n) !in arStore then MissingKey
                 else if Path(reciter, AudioFile(n)) !in recitations then FileNotFound(Path(reciter, AudioFile(n)))
                 else if background !in backgrounds then FileNotFound(background)
                 else ZeroDivision
  {
  }

  /** What a video of chapter `n` with Arabic verses `ar` shows: one caption per verse,
      caption k showing verse k alone; the whole `NNN.mp3` of the reciter over the clip
      looped to its length; a file named after chapter and reciter. */
  ghost predicate Shows(v: Video, n: int, ar: seq<string>, reciter: string, recitation: real, clip: real)
  {
    && Consistent(v)
    && v.audio == Whole(Path(reciter, AudioFile(n)))
    && v.length == recitation
    && v.background == Looped(clip, recitation)
    && |v.captions| == |ar| >= 1
    && (forall k :: 0 <= k < |v.captions| ==> v.captions[k].item == Line(ar[k]))
    && v.output == ChapterOutputName(n, reciter)
  }

  /** A generated video films the whole chapter typed in the box. */
  lemma PlanProduces(n: int, reciter: string, background: string, arStore: Store, recitations: set<string>,
                     backgrounds: set<string>, recitation: real, clip: real)
    requires 1 <= n <= MaxSurah
    requires recitation >= 0.0
    requires Plan(n, reciter, background, arStore, recitations, backgrounds, recitation, clip).Ok?
    ensures Shows(Plan(n, reciter, background, arStore, recitations, backgrounds, recitation, clip).value,
                  n, Get(arStore, n), reciter, recitation, clip)
  {
    AssembleShows(n, Get(arStore, n), reciter, recitation, clip);
  }

  lemma AssembleShows(n: int, ar: seq<string>, reciter: string, recitation: real, clip: real)
    requires recitation >= 0.0 && |ar| >= 1
    ensures Shows(Assemble(n, ar, reciter, recitation, clip), n, ar, reciter, recitation, clip)
  {
  }
}
