/** App/AppT6.py: the chapter is read off a label "N. Name", both verse lists are taken
    from the JSON stores with an empty default, the range text is resolved leniently, the
    selected verses are zipped with shaped Arabic, the recitation is cut to the range and
    the chosen background is looped over the cut. */
module AppT6 {
  import opened Outcomes
  import opened PyText
  import opened Selection
  import opened Pairing
  import opened Timing
  import opened Naming
  import opened Clips

  /** A press of the generate button, as a value. `choice` is the chosen line of surahs.txt,
      `background` the chosen background file, `shape` the reshaping and reordering of
      Arabic text for display, `recitations` the audio files present (as paths under the
      recitations folder), `backgrounds` the files present in the backgrounds folder,
      `recitation` and `clip` the durations the video library reports. */
  function Plan(choice: string, text: string, reciter: string, background: string,
                arStore: Store, enStore: Store, shape: string -> string,
                recitations: set<string>, backgrounds: set<string>,
                recitation: real, clip: real): Result<Video>
    requires recitation >= 0.0 && clip >= 0.0
  {
    match LabelNumber(choice)
    case Err(f) => Err(f)
    case Ok(n) =>
      FromNumber(n, text, reciter, background, arStore, enStore, shape, recitations, backgrounds,
                 recitation, clip)
  }

  /** The steps after the chapter number is known: both verse lists, the empty-chapter
      guard, then the range. */
  function FromNumber(n: int, text: string, reciter: string, background: string,
                      arStore: Store, enStore: Store, shape: string -> string,
                      recitations: set<string>, backgrounds: set<string>,
                      recitation: real, clip: real): Result<Video>
    requires recitation >= 0.0 && clip >= 0.0
  {
    var ar := Get(arStore, n);
    var en := Get(enStore, n);
    if ar == [] || en == [] then Err(SurahNotFound)
    else FromRange(n, ar, en, LenientRange(text, |ar|), reciter, background, shape,
                   recitations, backgrounds, recitation, clip)
  }

  /** The steps after the range is resolved: zip the slices, check the recitation, cut it,
      open the background, count the loops (a background of length zero divides by zero),
      then time the captions (no verse divides by zero). */
  function FromRange(n: int, ar: seq<string>, en: seq<string>, range: VerseRange,
                     reciter: string, background: string, shape: string -> string,
                     recitations: set<string>, backgrounds: set<string>,
                     recitation: real, clip: real): Result<Video>
    requires 1 <= range.start <= range.end <= |ar|
    requires recitation >= 0.0 && clip >= 0.0
  {
    var path := Path(reciter, AudioFile(n));
    if path !in recitations then Err(FileNotFound(path))
    else if background !in backgrounds then Err(FileNotFound(background))
    else if clip == 0.0 then Err(ZeroDivision)
    else if |Selected(ar, en, range.start, range.end, shape)| == 0 then Err(ZeroDivision)
    else Ok(Assemble(n, ar, en, range, reciter, shape, recitation, clip))
  }

  /** Cut the recitation to the range, loop the background over the cut and time one
      caption per zipped record. */
  function Assemble(n: int, ar: seq<string>, en: seq<string>, range: VerseRange, reciter: string,
                    shape: string -> string, recitation: real, clip: real): Video
    requires 1 <= range.start <= range.end <= |ar|
    requires recitation >= 0.0 && clip > 0.0
  {
    var cut := AudioCut(recitation, |ar|, range.start, range.end).value;
    AudioCutWithin(recitation, |ar|, range.start, range.end);
    var audio := Length(cut);
    TiledCovers(audio, clip);
    Film(Excerpt(Path(reciter, AudioFile(n)), cut), audio, TiledBackground(audio, clip),
         Lines(Selected(ar, en, range.start, range.end, shape)), RangeOutputName(n, range.start, range.end, reciter))
  }

  /** The script's steps in order, with the pairing and caption loops. */
  method Generate(choice: string, text: string, reciter: string, background: string,
                  arStore: Store, enStore: Store, shape: string -> string,
                  recitations: set<string>, backgrounds: set<string>,
                  recitation: real, clip: real) returns (r: Result<Video>)
    requires recitation >= 0.0 && clip >= 0.0
    ensures r == Plan(choice, text, reciter, background, arStore, enStore, shape, recitations,
                      backgrounds, recitation, clip)
  {
    var n := LabelNumber(choice);
    if n.Err? {
      return Err(n.failure);
    }
    r := GenerateNumber(n.value, text, reciter, background, arStore, enStore, shape, recitations,
                        backgrounds, recitation, clip);
  }

  /** The steps after the chapter number is known, with the pairing and caption loops. */
  method GenerateNumber(n: int, text: string, reciter: string, background: string,
                        arStore: Store, enStore: Store, shape: string -> string,
                        recitations: set<string>, backgrounds: set<string>,
                        recitation: real, clip: real) returns (r: Result<Video>)
    requires recitation >= 0.0 && clip >= 0.0
    ensures r == FromNumber(n, text, reciter, background, arStore, enStore, shape, recitations,
                            backgrounds, recitation, clip)
  {
    var ar := Get(arStore, n);
    var en := Get(enStore, n);
    if ar == [] || en == [] {
      return Err(SurahNotFound);
    }
    var range := LenientRange(text, |ar|);
    var verses := PairPositionally(PySlice(ar, range.start - 1, range.end),
                                   PySlice(en, range.start - 1, range.end), shape);
    var path := Path(reciter, AudioFile(n));
    if path !in recitations {
      return Err(FileNotFound(path));
    }
    var cut := AudioCut(recitation, |ar|, range.start, range.end);
    AudioCutWithin(recitation, |ar|, range.start, range.end);
    var audio := Length(cut.value);
    if background !in backgrounds {
      return Err(FileNotFound(background));
    }
    if clip == 0.0 {
      return Err(ZeroDivision);
    }
    if |verses| == 0 {
      return Err(ZeroDivision);
    }
    var captions := ScheduleCaptions(Lines(verses), audio);
    TiledCovers(audio, clip);
    r := Ok(Video(Excerpt(path, cut.value), audio, TiledBackground(audio, clip), captions,
                  RangeOutputName(n, range.start, range.end, reciter)));
  }

  /** Generation stops exactly when the choice has no number, either language has no
      verses for the chapter (before the range is looked at), the recitation file is
      missing, the background file is missing, the background has length zero, or the
      translation ends before the selected range starts. */
  lemma PlanStops(choice: string, text: string, reciter: string, background: string,
                  arStore: Store, enStore: Store, shape: string -> string,
                  recitations: set<string>, backgrounds: set<string>,
                  recitation: real, clip: real)
    requires recitation >= 0.0 && clip >= 0.0
    ensures var r := Plan(choice, text, reciter, background, arStore, enStore, shape, recitations,
                          backgrounds, recitation, clip);
            var n := LabelNumber(choice);
            r.Err? <==>
              n.Err? || Get(arStore, n.value) == [] || Get(enStore, n.value) == []
              || Path(reciter, AudioFile(n.value)) !in recitations
              || background !in backgrounds
              || clip == 0.0
              || |Get(enStore, n.value)| < LenientRange(text, |Get(arStore, n.value)|).start
    ensures LabelNumber(choice).Ok? && (Get(arStore, LabelNumber(choice).value) == []
                                        || Get(enStore, LabelNumber(choice).value) == []) ==>
              Plan(choice, text, reciter, background, arStore, enStore, shape, recitations,
                   backgrounds, recitation, clip)
              == Err(SurahNotFound)
  {
    var n := LabelNumber(choice);
    if n.Ok? {
      var ar := Get(arStore, n.value);
      var en := Get(enStore, n.value);
      if ar != [] && en != [] {
        var range := LenientRange(text, |ar|);
        SelectedPairs(ar, en, range.start, range.end, shape);
      }
    }
  }

  /** What a generated video shows for chapter `n` with verse lists `ar` and `en` and
      resolved `range`: caption k shows shaped Arabic verse start+k above its translation,
      as many captions as both slices share, over the reciter's file for the chapter cut
      to the range; the background is the clip of length `clip` looped over the cut;
      background and captions fit the soundtrack; the file is named after chapter, range
      and reciter. */
  ghost predicate Shows(v: Video, n: int, ar: seq<string>, en: seq<string>, range: VerseRange,
                        reciter: string, shape: string -> string, recitation: real, clip: real)
  {
    Consistent(v)
    && 1 <= range.start <= range.end <= |ar|
    && |v.captions| == Min(range.end, |en|) - range.start + 1
    && (forall k :: 0 <= k < |v.captions| ==>
          v.captions[k].item
          == Line(CaptionText(Verse(shape(ar[range.start - 1 + k]), en[range.start - 1 + k]))))
    && v.audio == Excerpt(Path(reciter, AudioFile(n)), AudioCut(recitation, |ar|, range.start, range.end).value)
    && v.length == Length(v.audio.cut)
    && clip > 0.0 && v.length >= 0.0 && v.background == TiledBackground(v.length, clip)
    && v.output == RangeOutputName(n, range.start, range.end, reciter)
  }

  /** A generated video shows the resolved range of the labelled chapter over the chosen
      background. */
  lemma PlanProduces(choice: string, text: string, reciter: string, background: string,
                     arStore: Store, enStore: Store, shape: string -> string,
                     recitations: set<string>, backgrounds: set<string>,
                     recitation: real, clip: real)
    requires recitation >= 0.0 && clip >= 0.0
    requires Plan(choice, text, reciter, background, arStore, enStore, shape, recitations,
                  backgrounds, recitation, clip).Ok?
    ensures LabelNumber(choice).Ok?
    ensures background in backgrounds
    ensures Shows(Plan(choice, text, reciter, background, arStore, enStore, shape, recitations,
                       backgrounds, recitation, clip).value,
                  LabelNumber(choice).value, Get(arStore, LabelNumber(choice).value),
                  Get(enStore, LabelNumber(choice).value),
                  LenientRange(text, |Get(arStore, LabelNumber(choice).value)|), reciter, shape,
                  recitation, clip)
  {
    var n := LabelNumber(choice).value;
    var ar := Get(arStore, n);
    var en := Get(enStore, n);
    assert ar != [] && en != [];
    var range := LenientRange(text, |ar|);
    assert Plan(choice, text, reciter, background, arStore, enStore, shape, recitations,
                backgrounds, recitation, clip)
           == FromRange(n, ar, en, range, reciter, background, shape, recitations, backgrounds,
                        recitation, clip);
    FromRangeProduces(n, ar, en, range, reciter, background, shape, recitations, backgrounds,
                      recitation, clip);
  }

  lemma FromRangeProduces(n: int, ar: seq<string>, en: seq<string>, range: VerseRange,
                          reciter: string, background: string, shape: string -> string,
                          recitations: set<string>, backgrounds: set<string>,
                          recitation: real, clip: real)
    requires 1 <= range.start <= range.end <= |ar|
    requires recitation >= 0.0 && clip >= 0.0
    requires FromRange(n, ar, en, range, reciter, background, shape, recitations, backgrounds,
                       recitation, clip).Ok?
    ensures background in backgrounds
    ensures Shows(FromRange(n, ar, en, range, reciter, background, shape, recitations, backgrounds,
                            recitation, clip).value,
                  n, ar, en, range, reciter, shape, recitation, clip)
  {
    SelectedPairs(ar, en, range.start, range.end, shape);
    AssembleShows(n, ar, en, range, reciter, shape, recitation, clip);
  }

  lemma AssembleShows(n: int, ar: seq<string>, en: seq<string>, range: VerseRange, reciter: string,
                      shape: string -> string, recitation: real, clip: real)
    requires 1 <= range.start <= range.end <= |ar| && range.start <= |en|
    requires recitation >= 0.0 && clip > 0.0
    ensures Shows(Assemble(n, ar, en, range, reciter, shape, recitation, clip),
                  n, ar, en, range, reciter, shape, recitation, clip)
  {
    AssembleTrack(n, ar, en, range, reciter, shape, recitation, clip);
    AssembleCaptions(n, ar, en, range, reciter, shape, recitation, clip);
  }

  /** The soundtrack, background and name of an assembled video. */
  lemma AssembleTrack(n: int, ar: seq<string>, en: seq<string>, range: VerseRange, reciter: string,
                      shape: string -> string, recitation: real, clip: real)
    requires 1 <= range.start <= range.end <= |ar|
    requires recitation >= 0.0 && clip > 0.0
    ensures var v := Assemble(n, ar, en, range, reciter, shape, recitation, clip);
            Consistent(v)
            && v.audio == Excerpt(Path(reciter, AudioFile(n)), AudioCut(recitation, |ar|, range.start, range.end).value)
            && v.length == Length(v.audio.cut) && v.length >= 0.0
            && v.background == TiledBackground(v.length, clip)
            && v.output == RangeOutputName(n, range.start, range.end, reciter)
  {
    AudioCutWithin(recitation, |ar|, range.start, range.end);
  }

  /** The captions of an assembled video, verse by verse. */
  lemma AssembleCaptions(n: int, ar: seq<string>, en: seq<string>, range: VerseRange, reciter: string,
                         shape: string -> string, recitation: real, clip: real)
    requires 1 <= range.start <= range.end <= |ar| && range.start <= |en|
    requires recitation >= 0.0 && clip > 0.0
    ensures var v := Assemble(n, ar, en, range, reciter, shape, recitation, clip);
            |v.captions| == Min(range.end, |en|) - range.start + 1
            && forall k :: 0 <= k < |v.captions| ==>
                 v.captions[k].item
                 == Line(CaptionText(Verse(shape(ar[range.start - 1 + k]), en[range.start - 1 + k])))
  {
    SelectedLines(ar, en, range.start, range.end, shape);
  }

  /** The captions of the zipped slices, verse by verse, as many as both slices share. */
  lemma SelectedLines(ar: seq<string>, en: seq<string>, start: int, end: int, shape: string -> string)
    requires 1 <= start <= end <= |ar| && start <= |en|
    ensures var c := Lines(Selected(ar, en, start, end, shape));
            |c| == Min(end, |en|) - start + 1
            && forall k :: 0 <= k < |c| ==>
                 c[k] == Line(CaptionText(Verse(shape(ar[start - 1 + k]), en[start - 1 + k])))
  {
    SelectedPairs(ar, en, start, end, shape);
  }
}
