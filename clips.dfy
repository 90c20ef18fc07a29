/** What a generation run assembles before the video library renders it: the audio, the
    background, the timed captions and the output file name; and the verse stores the
    scripts read their texts from. */
module Clips {
  import opened Outcomes
  import opened PyText
  import opened Pairing
  import opened Timing

  /** A caption: a text clip, or a picture with the Arabic drawn above the English. */
  datatype Caption = Line(text: string) | Picture(arabic: string, english: string)

  /** The soundtrack: part of a recitation file, a whole recitation file, or the bytes
      downloaded verse by verse. */
  datatype Audio = Excerpt(file: string, cut: Cut) | Whole(file: string) | Downloaded(bytes: seq<bv8>)

  /** The composite a script writes out: soundtrack, its length, background, captions, and
      the name of the output file. */
  datatype Video = Video(audio: Audio, length: real, background: Background,
                         captions: seq<Timed<Caption>>, output: string)

  /** A verse store loaded from JSON: chapter number as a decimal string to the texts of
      its verses, in order. */
  type Store = map<string, seq<string>>

  /** The verses of chapter `n`, or none when the store has no such key. */
  function Get(store: Store, n: int): seq<string>
  {
    if IntToString(n) in store then store[IntToString(n)] else []
  }

  /** The verses of chapter `n`; a chapter that is not a key raises KeyError. */
  function Index(store: Store, n: int): (r: Result<seq<string>>)
    ensures r.Ok? <==> IntToString(n) in store
    ensures r.Err? ==> r.failure == MissingKey
  {
    if IntToString(n) in store then Ok(store[IntToString(n)]) else Err(MissingKey)
  }

  /** Looking a chapter up with a default agrees with indexing whenever indexing succeeds,
      and gives no verses otherwise. */
  lemma GetAgreesWithIndex(store: Store, n: int)
    ensures Index(store, n).Ok? ==> Get(store, n) == Index(store, n).value
    ensures Index(store, n).Err? ==> Get(store, n) == []
  {
  }

  /** One text clip per record, showing `arabic + "\n" + translation`. */
  function Lines(verses: seq<Verse>): (c: seq<Caption>)
    ensures |c| == |verses|
    ensures forall i :: 0 <= i < |c| ==> c[i] == Line(CaptionText(verses[i]))
  {
    seq(|verses|, i requires 0 <= i < |verses| => Line(CaptionText(verses[i])))
  }

  /** One text clip per Arabic verse, the text alone. */
  function ArabicLines(texts: seq<string>): (c: seq<Caption>)
    ensures |c| == |texts|
    ensures forall i :: 0 <= i < |c| ==> c[i] == Line(texts[i])
  {
    seq(|texts|, i requires 0 <= i < |texts| => Line(texts[i]))
  }

  /** One picture per record. */
  function Pictures(verses: seq<Verse>): (c: seq<Caption>)
    ensures |c| == |verses|
    ensures forall i :: 0 <= i < |c| ==> c[i] == Picture(verses[i].arabic, verses[i].translation)
  {
    seq(|verses|, i requires 0 <= i < |verses| => Picture(verses[i].arabic, verses[i].translation))
  }

  /** The captions share `length` evenly, in order, without gap or overlap, from 0 to
      `length`. */
  ghost predicate Tiles<T>(c: seq<Timed<T>>, length: real)
  {
    |c| >= 1 && c[0].start == 0.0
    && (forall i :: 0 <= i < |c| ==> c[i].duration == length / |c| as real)
    && (forall i, j :: 0 <= i < j < |c| && j == i + 1 ==> c[i].start + c[i].duration == c[j].start)
    && c[|c| - 1].start + c[|c| - 1].duration == length
  }

  /** The background lasts exactly `length`, and a tiled one has copies laid end to end
      from 0 that reach at least `length` before the trim. */
  ghost predicate Covers(b: Background, length: real)
  {
    b.length == length
    && (b.Tiled? ==>
          |b.copies| >= 1 && b.copies[0].start == 0.0
          && (forall i, j :: 0 <= i < j < |b.copies| && j == i + 1 ==>
                b.copies[i].start + b.copies[i].duration == b.copies[j].start)
          && b.copies[|b.copies| - 1].start + b.copies[|b.copies| - 1].duration >= length)
  }

  /** What every video written by the scripts satisfies: the background covers the audio
      and the captions, if any, tile it. */
  ghost predicate Consistent(v: Video)
  {
    Covers(v.background, v.length) && (v.captions == [] || Tiles(v.captions, v.length))
  }

  /** Caption i of n is shown from `i * A / n` for `A / n`: together the captions tile the
      audio. */
  lemma ScheduleIsTiling<T>(items: seq<T>, audio: real)
    requires |items| >= 1
    ensures Tiles(Schedule(items, audio), audio)
  {
    var r := Schedule(items, audio);
    ScheduleTiles(items, audio);
  }

  /** The loop count of copies, laid end to end and trimmed to the audio, covers it. */
  lemma TiledCovers(audio: real, clip: real)
    requires audio >= 0.0 && clip > 0.0
    ensures Covers(TiledBackground(audio, clip), audio)
  {
    var b := TiledBackground(audio, clip);
    var count := |b.copies|;
    TilingContiguous(clip, count);
    assert b.copies[count - 1].start + b.copies[count - 1].duration == count as real * clip;
  }

  /** Looping only when the clip is shorter still covers the audio. */
  lemma ConditionalCovers(audio: real, clip: real)
    requires audio >= 0.0 && clip >= 0.0 && (clip > 0.0 || audio == 0.0)
    ensures Covers(ConditionalBackground(audio, clip), audio)
  {
    if clip < audio {
      TiledCovers(audio, clip);
    } else {
      TilingContiguous(clip, 1);
    }
  }

  /** The composite of a soundtrack lasting `length`, a background covering it and one
      caption per item scheduled over it: consistent, with the items shown in order. */
  function Film(audio: Audio, length: real, b: Background, items: seq<Caption>, output: string)
    : (v: Video)
    requires Covers(b, length)
    ensures Consistent(v)
    ensures v.audio == audio && v.length == length && v.background == b && v.output == output
    ensures |v.captions| == |items|
    ensures forall k :: 0 <= k < |items| ==> v.captions[k].item == items[k]
  {
    if |items| >= 1 then ScheduleIsTiling(items, length); Video(audio, length, b, Schedule(items, length), output)
    else Video(audio, length, b, [], output)
  }
}
