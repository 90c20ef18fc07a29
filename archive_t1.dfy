/** Archives/AppT1.py: the Flask generator with both Quran files loaded at start-up. Both
    chapters are read with an empty default and must be non-empty, the verses are zipped,
    the recitation is the first `NNN*.mp3` of the reciter's folder, and the background is
    copies of the clip concatenated and trimmed to the recitation. */
module ArchiveT1 {
  import opened Outcomes
  import opened PyText
  import opened Selection
  import opened Pairing
  import opened Timing
  import opened Naming
  import opened Clips
  import ArchiveR1

  /** A POST to `/`, as a value. The form and its whitelists are those of appR1.py.
      `arStore` and `enStore` are quran_ar.json and quran_en.json (chapter number to the
      `text` fields of its verses), `listing` is `os.listdir` of a reciter's folder,
      `backgrounds` the files of the backgrounds folder, `recitation` and `clip` the
      durations the video library reports. */
  function Post(form: ArchiveR1.Form, arStore: Store, enStore: Store, listing: string -> seq<string>,
                backgrounds: set<string>, recitation: real, clip: real): Result<Video>
    requires recitation >= 0.0 && clip >= 0.0
  {
    match ValidateRequest(form.surah, form.reciter, form.background,
                          ArchiveR1.Reciters, ArchiveR1.Backgrounds)
    case Err(f) => Err(f)
    case Ok(req) => FromRequest(req, arStore, enStore, listing, backgrounds, recitation, clip)
  }

  /** The steps after validation: both chapters, the empty-chapter guard, the folder scan,
      the background file, the loop count (a background of length zero divides by zero);
      then the video over the zipped verses. */
  function FromRequest(req: Request, arStore: Store, enStore: Store, listing: string -> seq<string>,
                       backgrounds: set<string>, recitation: real, clip: real): Result<Video>
    requires recitation >= 0.0 && clip >= 0.0
  {
    var ar := Get(arStore, req.surah);
    var en := Get(enStore, req.surah);
    if ar == [] || en == [] then Err(SurahNotFound)
    else
      match FirstMatch(listing(req.reciter), Pad3(req.surah), Mp3)
      case None => Err(AudioNotFound)
      case Some(file) =>
        if req.background !in backgrounds then Err(FileNotFound(req.background))
        else if clip == 0.0 then Err(ZeroDivision)
        else Ok(Assemble(Zip(ar, en, s => s), Path(req.reciter, file), recitation, clip))
  }

  /** The whole recitation over the concatenated copies of the background, one caption per
      record. */
  function Assemble(verses: seq<Verse>, audioPath: string, recitation: real, clip: real): Video
    requires recitation >= 0.0 && clip > 0.0
  {
    TiledCovers(recitation, clip);
    Film(Whole(audioPath), recitation, TiledBackground(recitation, clip), Lines(verses), FinalVideo)
  }

  /** The handler's statements in order, with the zip, scan and caption loops. */
  method HandlePost(form: ArchiveR1.Form, arStore: Store, enStore: Store, listing: string -> seq<string>,
                    backgrounds: set<string>, recitation: real, clip: real)
    returns (r: Result<Video>)
    requires recitation >= 0.0 && clip >= 0.0
    ensures r == Post(form, arStore, enStore, listing, backgrounds, recitation, clip)
  {
    var req := ValidateRequest(form.surah, form.reciter, form.background,
                               ArchiveR1.Reciters, ArchiveR1.Backgrounds);
    if req.Err? {
      return Err(req.failure);
    }
    var ar := Get(arStore, req.value.surah);
    var en := Get(enStore, req.value.surah);
    if ar == [] || en == [] {
      return Err(SurahNotFound);
    }
    var verses := PairPositionally(ar, en, s => s);
    var file := FindAudio(listing(req.value.reciter), Pad3(req.value.surah), Mp3);
    if file.None? {
      return Err(AudioNotFound);
    }
    if req.value.background !in backgrounds {
      return Err(FileNotFound(req.value.background));
    }
    if clip == 0.0 {
      return Err(ZeroDivision);
    }
    var background := TiledBackground(recitation, clip);
    var captions := ScheduleCaptions(Lines(verses), recitation);
    TiledCovers(recitation, clip);
    r := Ok(Video(Whole(Path(req.value.reciter, file.value)), recitation, background, captions, FinalVideo));
  }

  /** Everything a validated request reads is there: both files hold verses for the
      chapter, some listed file matches and the background file exists. */
  predicate Available(req: Request, arStore: Store, enStore: Store, listing: string -> seq<string>,
                      backgrounds: set<string>)
  {
    Get(arStore, req.surah) != [] && Get(enStore, req.surah) != []
    && FirstMatch(listing(req.reciter), Pad3(req.surah), Mp3).Some?
    && req.background in backgrounds
  }

  /** After validation, a video is written exactly when everything the request reads is
      there and the background clip has a length; a missing file answers 404, a
      background of length zero raises past the handler and answers 500, and the
      division by the number of records never fails. */
  lemma RequestStops(req: Request, arStore: Store, enStore: Store, listing: string -> seq<string>,
                     backgrounds: set<string>, recitation: real, clip: real)
    requires recitation >= 0.0 && clip >= 0.0
    ensures FromRequest(req, arStore, enStore, listing, backgrounds, recitation, clip).Ok? <==>
              Available(req, arStore, enStore, listing, backgrounds) && clip != 0.0
    ensures var r := FromRequest(req, arStore, enStore, listing, backgrounds, recitation, clip);
            r.Err? ==> HttpStatus(r.failure)
                       == if Available(req, arStore, enStore, listing, backgrounds) then 500 else 404
  {
  }

  /** A failed POST answers 400 exactly when validation rejects the form, 500 when a
      valid request finds everything it reads but the background has length zero, and
      404 otherwise. */
  lemma PostStatus(form: ArchiveR1.Form, arStore: Store, enStore: Store, listing: string -> seq<string>,
                   backgrounds: set<string>, recitation: real, clip: real)
    requires recitation >= 0.0 && clip >= 0.0
    ensures var r := Post(form, arStore, enStore, listing, backgrounds, recitation, clip);
            var v := ValidateRequest(form.surah, form.reciter, form.background,
                                     ArchiveR1.Reciters, ArchiveR1.Backgrounds);
            r.Err? ==> HttpStatus(r.failure)
                       == if v.Err? then 400
                          else if Available(v.value, arStore, enStore, listing, backgrounds) then 500
                          else 404
  {
    var v := ValidateRequest(form.surah, form.reciter, form.background,
                             ArchiveR1.Reciters, ArchiveR1.Backgrounds);
    if v.Ok? {
      RequestStops(v.value, arStore, enStore, listing, backgrounds, recitation, clip);
    }
  }

  /** What a video written for `req` shows: the whole first matching file of the reciter's
      folder, over a background that covers it; one caption per verse present in both
      chapters, caption k showing Arabic verse k above English verse k. */
  ghost predicate Shows(v: Video, req: Request, arStore: Store, enStore: Store,
                        listing: string -> seq<string>, recitation: real, clip: real)
  {
    && recitation >= 0.0 && clip > 0.0
    && FirstMatch(listing(req.reciter), Pad3(req.surah), Mp3).Some?
    && Consistent(v)
    && v.audio == Whole(Path(req.reciter, FirstMatch(listing(req.reciter), Pad3(req.surah), Mp3).value))
    && v.length == recitation
    && v.background == TiledBackground(recitation, clip)
    && |v.captions| == Min(|Get(arStore, req.surah)|, |Get(enStore, req.surah)|) >= 1
    && (forall k :: 0 <= k < |v.captions| ==>
          v.captions[k].item
          == Line(CaptionText(Verse(Get(arStore, req.surah)[k], Get(enStore, req.surah)[k]))))
    && v.output == FinalVideo
  }

  /** A written video shows the validated chapter, as `Shows` states. */
  lemma PostProduces(form: ArchiveR1.Form, arStore: Store, enStore: Store, listing: string -> seq<string>,
                     backgrounds: set<string>, recitation: real, clip: real)
    requires recitation >= 0.0 && clip >= 0.0
    requires Post(form, arStore, enStore, listing, backgrounds, recitation, clip).Ok?
    ensures ValidateRequest(form.surah, form.reciter, form.background,
                            ArchiveR1.Reciters, ArchiveR1.Backgrounds).Ok?
    ensures Shows(Post(form, arStore, enStore, listing, backgrounds, recitation, clip).value,
                  ValidateRequest(form.surah, form.reciter, form.background,
                                  ArchiveR1.Reciters, ArchiveR1.Backgrounds).value,
                  arStore, enStore, listing, recitation, clip)
  {
    var req := ValidateRequest(form.surah, form.reciter, form.background,
                               ArchiveR1.Reciters, ArchiveR1.Backgrounds).value;
    RequestProduces(req, arStore, enStore, listing, backgrounds, recitation, clip);
  }

  lemma RequestProduces(req: Request, arStore: Store, enStore: Store, listing: string -> seq<string>,
                        backgrounds: set<string>, recitation: real, clip: real)
    requires recitation >= 0.0 && clip >= 0.0
    requires FromRequest(req, arStore, enStore, listing, backgrounds, recitation, clip).Ok?
    ensures Shows(FromRequest(req, arStore, enStore, listing, backgrounds, recitation, clip).value,
                  req, arStore, enStore, listing, recitation, clip)
  {
    var file := FirstMatch(listing(req.reciter), Pad3(req.surah), Mp3).value;
    AssembleShows(Get(arStore, req.surah), Get(enStore, req.surah), Path(req.reciter, file), recitation, clip);
  }

  lemma AssembleShows(ar: seq<string>, en: seq<string>, audioPath: string, recitation: real, clip: real)
    requires recitation >= 0.0 && clip > 0.0
    ensures var v := Assemble(Zip(ar, en, s => s), audioPath, recitation, clip);
            |v.captions| == Min(|ar|, |en|)
            && forall k :: 0 <= k < |v.captions| ==> v.captions[k].item == Line(CaptionText(Verse(ar[k], en[k])))
  {
  }
}
