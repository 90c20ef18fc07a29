/** Archives/AppT2.py: Archives/AppT1.py as a Streamlit page. The widgets bound the chapter
    number to 1..114 and offer only whitelisted reciters and backgrounds, so nothing is
    validated; every later step is that of the Flask handler, and every failure is shown
    as an error message. */
module ArchiveT2 {
  import opened Outcomes
  import opened PyText
  import opened Selection
  import opened Pairing
  import opened Timing
  import opened Naming
  import opened Clips
  import ArchiveR1
  import ArchiveT1

  /** A press of the generate button, as a value: the steps of the Flask handler after
      validation, with the widget values as the request. Opening a background file that
      is not in `backgrounds` fails inside the video library and is shown as an error. */
  function Plan(n: int, reciter: string, background: string, arStore: Store, enStore: Store,
                listing: string -> seq<string>, backgrounds: set<string>,
                recitation: real, clip: real): Result<Video>
    requires 1 <= n <= MaxSurah
    requires reciter in ArchiveR1.Reciters && background in ArchiveR1.Backgrounds
    requires recitation >= 0.0 && clip >= 0.0
  {
    ArchiveT1.FromRequest(Request(n, reciter, background), arStore, enStore, listing, backgrounds,
                          recitation, clip)
  }

  /** The script's steps in order, with the zip, scan and caption loops. */
  method Generate(n: int, reciter: string, background: string, arStore: Store, enStore: Store,
                  listing: string -> seq<string>, backgrounds: set<string>,
                  recitation: real, clip: real) returns (r: Result<Video>)
    requires 1 <= n <= MaxSurah
    requires reciter in ArchiveR1.Reciters && background in ArchiveR1.Backgrounds
    requires recitation >= 0.0 && clip >= 0.0
    ensures r == Plan(n, reciter, background, arStore, enStore, listing, backgrounds, recitation, clip)
  {
    var ar := Get(arStore, n);
    var en := Get(enStore, n);
    if ar == [] || en == [] {
      return Err(SurahNotFound);
    }
    var verses := PairPositionally(ar, en, s => s);
    var file := FindAudio(listing(reciter), Pad3(n), Mp3);
    if file.None? {
      return Err(AudioNotFound);
    }
    if background !in backgrounds {
      return Err(FileNotFound(background));
    }
    if clip == 0.0 {
      return Err(ZeroDivision);
    }
    var copies := TiledBackground(recitation, clip);
    var captions := ScheduleCaptions(Lines(verses), recitation);
    TiledCovers(recitation, clip);
    r := Ok(Video(Whole(Path(reciter, file.value)), recitation, copies, captions, FinalVideo));
  }

  /** Generation stops exactly when either file has no verses for the chapter, no listed
      file matches, the background file is missing, or the background has length zero;
      never at the division by the number of records. */
  lemma PlanStops(n: int, reciter: string, background: string, arStore: Store, enStore: Store,
                  listing: string -> seq<string>, backgrounds: set<string>,
                  recitation: real, clip: real)
    requires 1 <= n <= MaxSurah
    requires reciter in ArchiveR1.Reciters && background in ArchiveR1.Backgrounds
    requires recitation >= 0.0 && clip >= 0.0
    ensures Plan(n, reciter, background, arStore, enStore, listing, backgrounds, recitation, clip).Ok? <==>
              Get(arStore, n) != [] && Get(enStore, n) != []
              && FirstMatch(listing(reciter), Pad3(n), Mp3).Some? && background in backgrounds
              && clip != 0.0
    ensures Plan(n, reciter, background, arStore, enStore, listing, backgrounds, recitation, clip).Err? ==>
              Plan(n, reciter, background, arStore, enStore, listing, backgrounds, recitation, clip).failure
              in {SurahNotFound, AudioNotFound, FileNotFound(background), ZeroDivision}
  {
    ArchiveT1.RequestStops(Request(n, reciter, background), arStore, enStore, listing, backgrounds,
                           recitation, clip);
  }

  /** A generated video shows what the Flask handler's video shows for the same request. */
  lemma PlanProduces(n: int, reciter: string, background: string, arStore: Store, enStore: Store,
                     listing: string -> seq<string>, backgrounds: set<string>,
                     recitation: real, clip: real)
    requires 1 <= n <= MaxSurah
    requires reciter in ArchiveR1.Reciters && background in ArchiveR1.Backgrounds
    requires recitation >= 0.0 && clip >= 0.0
    requires Plan(n, reciter, background, arStore, enStore, listing, backgrounds, recitation, clip).Ok?
    ensures ArchiveT1.Shows(Plan(n, reciter, background, arStore, enStore, listing, backgrounds,
                                 recitation, clip).value,
                            Request(n, reciter, background), arStore, enStore, listing, recitation, clip)
  {
    ArchiveT1.RequestProduces(Request(n, reciter, background), arStore, enStore, listing, backgrounds,
                              recitation, clip);
  }

  /** The page and the Flask handler agree: every widget choice gives the outcome of posting
      the same choice, its chapter number written out, to the handler. */
  lemma PlanAgreesWithPost(n: int, reciter: string, background: string, arStore: Store, enStore: Store,
                           listing: string -> seq<string>, backgrounds: set<string>,
                           recitation: real, clip: real)
    requires 1 <= n <= MaxSurah
    requires reciter in ArchiveR1.Reciters && background in ArchiveR1.Backgrounds
    requires recitation >= 0.0 && clip >= 0.0
    ensures Plan(n, reciter, background, arStore, enStore, listing, backgrounds, recitation, clip)
            == ArchiveT1.Post(ArchiveR1.Form(Some(IntToString(n)), Some(reciter), Some(background)),
                              arStore, enStore, listing, backgrounds, recitation, clip)
  {
    SurahFieldAccepts(n);
  }
}
