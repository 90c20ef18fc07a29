/** Archives/appR7.py: the Flask generator reading whole-Quran JSON files. The verses are
    driven by the English chapter, each paired with the Arabic verse at the same index or
    none; the recitation is the plain `NNN.mp3` file, the background is extended copy by
    copy, and each verse gets an equal slot. */
module ArchiveR7 {
  import opened Outcomes
  import opened PyText
  import opened Selection
  import opened Pairing
  import opened Timing
  import opened Naming
  import opened Clips
  import ArchiveR1

  /** This variant's reciter whitelist: the third name is a folder name with a space. The
      background whitelist is that of appR1.py. */
  const Reciters: seq<string> := ["Mishary_Rashid_Alafasy", "Yasir_AlDosari", "Idris Akbar"]

  /** A POST to `/`, as a value. `enStore` and `arStore` are Quran.json and quran_ar.json
      (chapter number to the `text` fields of its verses), `recitations` the audio files
      present (as paths under the recitations folder), `backgrounds` the files of the
      backgrounds folder, `recitation` and `clip` the durations the video library reports. */
  function Post(form: ArchiveR1.Form, enStore: Store, arStore: Store, recitations: set<string>,
                backgrounds: set<string>, recitation: real, clip: real): Result<Video>
    requires recitation >= 0.0 && clip >= 0.0
  {
    match ValidateRequest(form.surah, form.reciter, form.background, Reciters, ArchiveR1.Backgrounds)
    case Err(f) => Err(f)
    case Ok(req) => FromRequest(req, enStore, arStore, recitations, backgrounds, recitation, clip)
  }

  /** The steps after validation: both chapters by key, English first; the records; the
      audio and background files; the loop count, a division by the background's length;
      the caption slot, a division by the number of records. */
  function FromRequest(req: Request, enStore: Store, arStore: Store, recitations: set<string>,
                       backgrounds: set<string>, recitation: real, clip: real): Result<Video>
    requires recitation >= 0.0 && clip >= 0.0
  {
    match Index(enStore, req.surah)
    case Err(f) => Err(f)
    case Ok(en) =>
      match Index(arStore, req.surah)
      case Err(f) => Err(f)
      case Ok(ar) =>
        var audioPath := Path(req.reciter, AudioFile(req.surah));
        if audioPath !in recitations then Err(AudioNotFound)
        else if req.background !in backgrounds then Err(FileNotFound(req.background))
        else if clip == 0.0 then Err(ZeroDivision)
        else if |en| == 0 then Err(ZeroDivision)
        else Ok(Assemble(EnglishDriven(ar, en), audioPath, recitation, clip))
  }

  /** The whole recitation as soundtrack over copies of the background laid end to end and
      trimmed to it, one caption per record. */
  function Assemble(verses: seq<Verse>, audioPath: string, recitation: real, clip: real): Video
    requires recitation >= 0.0 && clip > 0.0
  {
    TiledCovers(recitation, clip);
    Film(Whole(audioPath), recitation, TiledBackground(recitation, clip), Lines(verses), FinalVideo)
  }

  /** The handler's statements in order, with the pairing, concatenation and caption loops. */
  method HandlePost(form: ArchiveR1.Form, enStore: Store, arStore: Store, recitations: set<string>,
                    backgrounds: set<string>, recitation: real, clip: real)
    returns (r: Result<Video>)
    requires recitation >= 0.0 && clip >= 0.0
    ensures r == Post(form, enStore, arStore, recitations, backgrounds, recitation, clip)
  {
    var req := ValidateRequest(form.surah, form.reciter, form.background, Reciters, ArchiveR1.Backgrounds);
    if req.Err? {
      return Err(req.failure);
    }
    var n := req.value.surah;
    var en := Index(enStore, n);
    if en.Err? {
      return Err(en.failure);
    }
    var ar := Index(arStore, n);
    if ar.Err? {
      return Err(ar.failure);
    }
    var verses := PairByEnglish(ar.value, en.value);
    var audioPath := Path(req.value.reciter, AudioFile(n));
    if audioPath !in recitations {
      return Err(AudioNotFound);
    }
    if req.value.background !in backgrounds {
      return Err(FileNotFound(req.value.background));
    }
    if clip == 0.0 {
      return Err(ZeroDivision);
    }
    var copies := ConcatenateCopies(clip, Repetitions(recitation, clip));
    if |verses| == 0 {
      return Err(ZeroDivision);
    }
    var captions := ScheduleCaptions(Lines(verses), recitation);
    TiledCovers(recitation, clip);
    r := Ok(Video(Whole(audioPath), recitation, Tiled(copies, recitation), captions, FinalVideo));
  }

  /** After validation, a video is written exactly when both files hold the chapter, the
      reciter's `NNN.mp3` and the background file exist, the background has a length and
      the English chapter has at least one verse. A missing chapter key, a background of
      length zero and an empty English chapter escape as a 500; a missing file answers
      404. */
  lemma RequestStops(req: Request, enStore: Store, arStore: Store, recitations: set<string>,
                     backgrounds: set<string>, recitation: real, clip: real)
    requires recitation >= 0.0 && clip >= 0.0
    ensures FromRequest(req, enStore, arStore, recitations, backgrounds, recitation, clip).Ok? <==>
              IntToString(req.surah) in enStore && IntToString(req.surah) in arStore
              && Path(req.reciter, AudioFile(req.surah)) in recitations
              && req.background in backgrounds
              && clip != 0.0
              && |enStore[IntToString(req.surah)]| >= 1
    ensures var r := FromRequest(req, enStore, arStore, recitations, backgrounds, recitation, clip);
            r.Err? ==> (HttpStatus(r.failure) == 500 <==> r.failure in {MissingKey, ZeroDivision})
                       && HttpStatus(r.failure) in {404, 500}
  {
  }

  /** A failed POST answers 400 exactly when validation rejects the form. */
  lemma PostStatus(form: ArchiveR1.Form, enStore: Store, arStore: Store, recitations: set<string>,
                   backgrounds: set<string>, recitation: real, clip: real)
    requires recitation >= 0.0 && clip >= 0.0
    ensures var r := Post(form, enStore, arStore, recitations, backgrounds, recitation, clip);
            r.Err? && HttpStatus(r.failure) == 400 <==>
              ValidateRequest(form.surah, form.reciter, form.background, Reciters, ArchiveR1.Backgrounds).Err?
  {
    var v := ValidateRequest(form.surah, form.reciter, form.background, Reciters, ArchiveR1.Backgrounds);
    if v.Ok? {
      RequestStops(v.value, enStore, arStore, recitations, backgrounds, recitation, clip);
    }
  }

  /** What a video written for chapter `n` from English verses `en` and Arabic verses `ar`
      shows: one caption per English verse, in order, with the Arabic verse of the same
      index above it, or nothing where the Arabic chapter is shorter, so Arabic verses
      past the English chapter are never shown; the whole recitation over a background
      that covers it. */
  ghost predicate Shows(v: Video, reciter: string, n: int, ar: seq<string>, en: seq<string>,
                        recitation: real, clip: real)
  {
    && recitation >= 0.0 && clip > 0.0
    && Consistent(v)
    && v.audio == Whole(Path(reciter, AudioFile(n)))
    && v.length == recitation
    && v.background == TiledBackground(recitation, clip)
    && |v.captions| == |en|
    && (forall k :: 0 <= k < |v.captions| ==>
          v.captions[k].item == Line(CaptionText(Verse(if k < |ar| then ar[k] else "", en[k]))))
    && v.output == FinalVideo
  }

  /** A written video shows the validated chapter, English-driven, as `Shows` states. */
  lemma PostProduces(form: ArchiveR1.Form, enStore: Store, arStore: Store, recitations: set<string>,
                     backgrounds: set<string>, recitation: real, clip: real)
    requires recitation >= 0.0 && clip >= 0.0
    requires Post(form, enStore, arStore, recitations, backgrounds, recitation, clip).Ok?
    ensures ValidateRequest(form.surah, form.reciter, form.background, Reciters, ArchiveR1.Backgrounds).Ok?
    ensures var req := ValidateRequest(form.surah, form.reciter, form.background,
                                       Reciters, ArchiveR1.Backgrounds).value;
            Shows(Post(form, enStore, arStore, recitations, backgrounds, recitation, clip).value,
                  req.reciter, req.surah, Get(arStore, req.surah), Get(enStore, req.surah),
                  recitation, clip)
  {
    var req := ValidateRequest(form.surah, form.reciter, form.background, Reciters, ArchiveR1.Backgrounds).value;
    RequestProduces(req, enStore, arStore, recitations, backgrounds, recitation, clip);
  }

  lemma RequestProduces(req: Request, enStore: Store, arStore: Store, recitations: set<string>,
                        backgrounds: set<string>, recitation: real, clip: real)
    requires recitation >= 0.0 && clip >= 0.0
    requires FromRequest(req, enStore, arStore, recitations, backgrounds, recitation, clip).Ok?
    ensures Shows(FromRequest(req, enStore, arStore, recitations, backgrounds, recitation, clip).value,
                  req.reciter, req.surah, Get(arStore, req.surah), Get(enStore, req.surah),
                  recitation, clip)
  {
    var ar := Get(arStore, req.surah);
    var en := Get(enStore, req.surah);
    AssembleShows(ar, en, Path(req.reciter, AudioFile(req.surah)), recitation, clip);
  }

  lemma AssembleShows(ar: seq<string>, en: seq<string>, audioPath: string, recitation: real, clip: real)
    requires recitation >= 0.0 && clip > 0.0
    ensures var v := Assemble(EnglishDriven(ar, en), audioPath, recitation, clip);
            |v.captions| == |en|
            && forall k :: 0 <= k < |en| ==>
                 v.captions[k].item == Line(CaptionText(Verse(if k < |ar| then ar[k] else "", en[k])))
  {
  }
}
