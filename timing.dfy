/** The arithmetic on durations the scripts share: cutting a chapter's audio down to a
    verse range, repeating the background until it outlasts the audio, and giving each
    caption its slot. Durations are exact reals. */
module Timing {
  import opened Outcomes

  /** The part of a clip between two instants. */
  datatype Cut = Cut(from: real, to: real)

  function Length(c: Cut): real
  {
    c.to - c.from
  }

  /** One copy of the background clip placed at `start`. */
  datatype Segment = Segment(start: real, duration: real)

  /** Something shown from `start` for `duration`: a caption or a text image. */
  datatype Timed<T> = Timed(item: T, start: real, duration: real)

  /** The background of the final video: copies of the clip laid end to end and trimmed to
      `length`, or the video library's own loop of a clip of length
      `clip`, whose internals are not part of this model. */
  datatype Background =
    | Tiled(copies: seq<Segment>, length: real)
    | Looped(clip: real, length: real)

  // ---------------------------------------------------------------- audio cut

  /** The cut of verses start..end out of a recitation of length D: each verse is assumed
      to take the same share D / total of it, so the cut runs from the end of verse
      start - 1 to the end of verse end. A chapter of no verses is a division by zero. */
  function AudioCut(recitation: real, total: int, start: int, end: int): (r: Result<Cut>)
    ensures r.Err? <==> total == 0
    ensures r.Err? ==> r.failure == ZeroDivision
  {
    if total == 0 then Err(ZeroDivision)
    else
      var share := recitation / total as real;
      Ok(Cut((start - 1) as real * share, end as real * share))
  }

  /** The cut lasts as many shares as the range has verses; within a chapter it lies
      inside the recitation, and the whole chapter is the whole recitation. */
  lemma AudioCutLength(recitation: real, total: int, start: int, end: int)
    requires total >= 1
    ensures var c := AudioCut(recitation, total, start, end).value;
            Length(c) == (end - start + 1) as real * (recitation / total as real)
  {
    var share := recitation / total as real;
    assert end as real * share - (start - 1) as real * share == (end - start + 1) as real * share;
  }

  lemma AudioCutWithin(recitation: real, total: int, start: int, end: int)
    requires recitation >= 0.0 && 1 <= start <= end <= total
    ensures var c := AudioCut(recitation, total, start, end).value;
            0.0 <= c.from <= c.to <= recitation
  {
    var share := recitation / total as real;
    assert share >= 0.0;
    assert (start - 1) as real * share <= end as real * share;
    assert end as real * share <= total as real * share;
    assert total as real * share == recitation;
  }

  lemma AudioCutWhole(recitation: real, total: int)
    requires total >= 1
    ensures AudioCut(recitation, total, 1, total) == Ok(Cut(0.0, recitation))
  {
    var share := recitation / total as real;
    assert total as real * share == recitation;
  }

  /** Cuts of adjacent ranges meet: splitting a range at a verse splits its audio there. */
  lemma AudioCutAdjacent(recitation: real, total: int, start: int, mid: int, end: int)
    requires total >= 1
    ensures AudioCut(recitation, total, start, mid).value.to
            == AudioCut(recitation, total, mid + 1, end).value.from
  {
  }

  // ---------------------------------------------------------------- background

  /** One more than the floor of A / B: how many copies of a clip of length `clip` are put end to end
      for audio of length `audio`. */
  function Repetitions(audio: real, clip: real): (count: int)
    requires audio >= 0.0 && clip > 0.0
    ensures count >= 1
    ensures count as real * clip > audio
    ensures (count - 1) as real * clip <= audio
  {
    FloorBounds(audio, clip);
    (audio / clip).Floor + 1
  }

  /** The whole number of clips that fit in `x`, and the next one, bracket `x`. */
  lemma FloorBounds(x: real, clip: real)
    requires x >= 0.0 && clip > 0.0
    ensures var k := (x / clip).Floor;
            k >= 0 && k as real * clip <= x < (k + 1) as real * clip
  {
    var q := x / clip;
    var k := q.Floor;
    var lo, hi := k as real, (k + 1) as real;
    assert lo <= q < hi;
    assert q * clip == x;
    MultiplyBelow(lo, q, clip);
    MultiplyStrictlyBelow(q, hi, clip);
    assert x < hi * clip;
    assert q >= 0.0;
  }

  lemma MultiplyBelow(x: real, y: real, c: real)
    requires x <= y && c > 0.0
    ensures x * c <= y * c
  {
    assert y * c - x * c == (y - x) * c;
  }

  lemma MultiplyStrictlyBelow(x: real, y: real, c: real)
    requires x < y && c > 0.0
    ensures x * c < y * c
  {
    assert y * c - x * c == (y - x) * c;
  }

  /** Copy i of the clip starts at `i * clip`. */
  function Tiling(clip: real, count: int): (copies: seq<Segment>)
    requires count >= 0
    ensures |copies| == count
    ensures forall i :: 0 <= i < count ==> copies[i] == Segment(i as real * clip, clip)
  {
    seq(count, i requires 0 <= i < count => Segment(i as real * clip, clip))
  }

  /** The copies follow each other without gap or overlap, from 0 to `count * clip`. */
  lemma TilingContiguous(clip: real, count: int)
    requires count >= 1
    ensures Tiling(clip, count)[0].start == 0.0
    ensures forall i :: 0 <= i < count - 1 ==>
              Tiling(clip, count)[i].start + Tiling(clip, count)[i].duration
              == Tiling(clip, count)[i + 1].start
    ensures Tiling(clip, count)[count - 1].start + clip == count as real * clip
  {
    var t := Tiling(clip, count);
    forall i | 0 <= i < count - 1
      ensures t[i].start + t[i].duration == t[i + 1].start
    {
      assert (i + 1) as real * clip == i as real * clip + clip;
    }
    assert (count - 1) as real * clip + clip == count as real * clip;
  }

  /** With the repetition count, every instant of the audio lies in some copy. */
  lemma TilingCovers(audio: real, clip: real, t: real)
    requires audio >= 0.0 && clip > 0.0 && 0.0 <= t <= audio
    ensures exists i :: 0 <= i < Repetitions(audio, clip) &&
              Tiling(clip, Repetitions(audio, clip))[i].start <= t
              < Tiling(clip, Repetitions(audio, clip))[i].start + clip
  {
    var count := Repetitions(audio, clip);
    var i := (t / clip).Floor;
    FloorBounds(t, clip);
    assert (i + 1) as real * clip == i as real * clip + clip;
    assert i < count by {
      if i >= count {
        MultiplyBelow(count as real, i as real, clip);
      }
    }
    assert Tiling(clip, count)[i].start == i as real * clip;
  }

  /** `count` copies of the clip concatenated and trimmed to the audio. */
  function TiledBackground(audio: real, clip: real): (b: Background)
    requires audio >= 0.0 && clip > 0.0
    ensures b.Tiled? && b.length == audio
    ensures |b.copies| as real * clip > audio
  {
    Tiled(Tiling(clip, Repetitions(audio, clip)), audio)
  }

  /** The loop that starts from one copy and extends the background one copy at a time. */
  method ConcatenateCopies(clip: real, count: int) returns (copies: seq<Segment>)
    requires count >= 1
    ensures copies == Tiling(clip, count)
  {
    copies := [Segment(0.0, clip)];
    var k := 1;
    while k < count
      invariant 1 <= k <= count
      invariant |copies| == k
      invariant forall i :: 0 <= i < k ==> copies[i] == Segment(i as real * clip, clip)
    {
      copies := copies + [Segment(k as real * clip, clip)];
      k := k + 1;
    }
  }

  /** The loop that places copy i at offset i * B; the copies are then composited. */
  method PlaceCopies(clip: real, count: int) returns (copies: seq<Segment>)
    requires count >= 0
    ensures copies == Tiling(clip, count)
  {
    copies := [];
    var i := 0;
    while i < count
      invariant 0 <= i <= count
      invariant |copies| == i
      invariant forall k :: 0 <= k < i ==> copies[k] == Segment(k as real * clip, clip)
    {
      copies := copies + [Segment(i as real * clip, clip)];
      i := i + 1;
    }
  }

  /** Looping only when the clip is shorter than the audio, then trimming to A: a clip at
      least as long as the audio is used once. A clip of length zero is only looped, and
      so only divided by, when the audio has a length. */
  function ConditionalBackground(audio: real, clip: real): (b: Background)
    requires audio >= 0.0 && clip >= 0.0 && (clip > 0.0 || audio == 0.0)
    ensures b.Tiled? && b.length == audio && |b.copies| >= 1
    ensures |b.copies| as real * clip >= audio
  {
    if clip < audio then TiledBackground(audio, clip) else Tiled(Tiling(clip, 1), audio)
  }

  /** Looping only when needed gives the same copies as always looping, except that a
      clip longer than the audio is used once instead of twice or more. */
  lemma ConditionalAgrees(audio: real, clip: real)
    requires audio >= 0.0 && clip > 0.0
    ensures clip < audio ==> ConditionalBackground(audio, clip) == TiledBackground(audio, clip)
    ensures clip > audio ==> ConditionalBackground(audio, clip) == TiledBackground(audio, clip)
    ensures clip == audio ==> |TiledBackground(audio, clip).copies| == 2
                              && |ConditionalBackground(audio, clip).copies| == 1
  {
    if clip > audio {
      var q := audio / clip;
      assert q * clip == audio;
      assert q < 1.0 by {
        if q >= 1.0 { MultiplyBelow(1.0, q, clip); }
      }
      assert q.Floor == 0;
      assert Repetitions(audio, clip) == 1;
    }
    if clip == audio {
      assert audio / clip == 1.0;
    }
  }

  // ---------------------------------------------------------------- captions

  /** Caption i of n starts at `i * A / n` and lasts `A / n`; no items, no captions. */
  function Schedule<T>(items: seq<T>, audio: real): (r: seq<Timed<T>>)
    ensures |r| == |items|
    ensures forall i :: 0 <= i < |r| ==> r[i].item == items[i]
  {
    if |items| == 0 then []
    else
      var d := audio / |items| as real;
      seq(|items|, i requires 0 <= i < |items| => Timed(items[i], i as real * d, d))
  }

  /** The captions share the audio evenly, follow each other without gap or overlap, the
      first starts at 0 and the last ends exactly with the audio. */
  lemma ScheduleTiles<T>(items: seq<T>, audio: real)
    requires |items| >= 1
    ensures var r := Schedule(items, audio);
            r[0].start == 0.0
            && (forall i :: 0 <= i < |r| ==> r[i].duration * |items| as real == audio)
            && (forall i :: 0 <= i < |r| - 1 ==> r[i].start + r[i].duration == r[i + 1].start)
            && r[|r| - 1].start + r[|r| - 1].duration == audio
  {
    var r := Schedule(items, audio);
    var n := |items|;
    var d := audio / n as real;
    ShareTimesCount(audio, n);
    forall i | 0 <= i < n - 1
      ensures r[i].start + r[i].duration == r[i + 1].start
    {
      NextStep(i, d);
    }
    NextStep(n - 1, d);
  }

  lemma ShareTimesCount(audio: real, n: int)
    requires n >= 1
    ensures (audio / n as real) * n as real == audio
  {
  }

  lemma NextStep(i: int, d: real)
    ensures i as real * d + d == (i + 1) as real * d
  {
  }

  /** Sum of the durations of the first k entries. */
  function TotalDuration<T>(r: seq<Timed<T>>): real
  {
    if r == [] then 0.0 else TotalDuration(r[..|r| - 1]) + r[|r| - 1].duration
  }

  /** The first k captions take k shares: all n of them, the whole audio. */
  lemma {:induction false} SchedulePrefixDuration<T>(items: seq<T>, audio: real, k: int)
    requires |items| >= 1 && 0 <= k <= |items|
    ensures TotalDuration(Schedule(items, audio)[..k]) == k as real * (audio / |items| as real)
  {
    var r := Schedule(items, audio);
    if k > 0 {
      SchedulePrefixDuration(items, audio, k - 1);
      assert r[..k][..k - 1] == r[..k - 1];
    }
  }

  lemma ScheduleTotal<T>(items: seq<T>, audio: real)
    requires |items| >= 1
    ensures TotalDuration(Schedule(items, audio)) == audio
  {
    var r := Schedule(items, audio);
    SchedulePrefixDuration(items, audio, |items|);
    assert r[..|items|] == r;
  }

  /** With non-negative audio, caption i ends no later than caption j starts, for i < j:
      no two captions are on screen at once. */
  lemma ScheduleDisjoint<T>(items: seq<T>, audio: real, i: int, j: int)
    requires audio >= 0.0 && 0 <= i < j < |items|
    ensures Schedule(items, audio)[i].start + Schedule(items, audio)[i].duration
            <= Schedule(items, audio)[j].start
  {
    var d := audio / |items| as real;
    assert d >= 0.0;
    if d > 0.0 {
      MultiplyBelow((i + 1) as real, j as real, d);
      assert i as real * d + d == (i + 1) as real * d;
    }
  }

  /** The caption loop: item i becomes a clip that starts at i * (A / n) and lasts A / n. */
  method ScheduleCaptions<T>(items: seq<T>, audio: real) returns (clips: seq<Timed<T>>)
    ensures clips == Schedule(items, audio)
  {
    clips := [];
    var i := 0;
    while i < |items|
      invariant 0 <= i <= |items|
      invariant |clips| == i
      invariant forall k :: 0 <= k < i ==>
                  clips[k] == Timed(items[k], k as real * (audio / |items| as real), audio / |items| as real)
    {
      var d := audio / |items| as real;
      clips := clips + [Timed(items[i], i as real * d, d)];
      i := i + 1;
    }
    if |items| > 0 {
      var expected := Schedule(items, audio);
      assert forall k :: 0 <= k < |items| ==> clips[k] == expected[k];
    }
  }

  /** The images are made first and then given their slots in place: entry i is replaced
      by the same image lasting d and starting at i * d. */
  method TimeInPlace<T>(clips: array<Timed<T>>, audio: real)
    requires clips.Length >= 1
    modifies clips
    ensures clips[..] == Schedule(Items(old(clips[..])), audio)
  {
    ghost var items := clips[..];
    var d := audio / clips.Length as real;
    var i := 0;
    while i < clips.Length
      invariant 0 <= i <= clips.Length
      invariant forall k :: 0 <= k < i ==> clips[k] == Timed(items[k].item, k as real * d, d)
      invariant forall k :: i <= k < clips.Length ==> clips[k] == items[k]
    {
      clips[i] := Timed(clips[i].item, i as real * d, d);
      i := i + 1;
    }
    ghost var expected := Schedule(Items(items), audio);
    assert forall k :: 0 <= k < clips.Length ==> clips[k] == expected[k];
    assert clips[..] == expected;
  }

  /** What a list of timed things shows, in order. */
  function Items<T>(r: seq<Timed<T>>): (items: seq<T>)
    ensures |items| == |r| && forall i :: 0 <= i < |r| ==> items[i] == r[i].item
  {
    seq(|r|, i requires 0 <= i < |r| => r[i].item)
  }
}
