/**
 The fixed, ordered table of five output variants the video handler
 produces, and the ffmpeg `-filter_complex` graph each one uses.

 Every graph has the same shape: the video stream is sped up by
 `setpts=PTS/<k>`, then passed through a variant-specific chain (kept as an
 opaque string), and the audio stream is sped up by `atempo=<k>` with the
 same factor `<k>`, so picture and sound stay in sync. The factor is kept as
 the literal text that appears in the command.
 */
module Variants {
  import opened Wrappers

  /** Encoder settings: `-c:v <codec> -preset <preset> -crf <crf>`. */
  datatype Encoder = Encoder(codec: string, preset: string, crf: nat)

  datatype Variant = Variant(
    caption: string,          // caption of the reply that carries this variant
    prefix: string,           // prepended to the job's file name to name the output
    speed: string,            // speed factor, as written in the filter graph
    videoChain: string,       // the variant's own video filters, after the speed change
    frameRate: Option<nat>,   // `-r` value; None keeps the source rate
    encoder: Encoder)

  const X264Fast: Encoder := Encoder("libx264", "fast", 28)

  const Warm := Variant("🔥 Warm LUT + 25fps + 1.1x", "warm_25fps_", "1.1",
    "eq=contrast=1.05:brightness=0.02:saturation=1.2", Some(25), X264Fast)
  const Cold := Variant("❄️ Cold LUT + 30fps + 1.2x", "cold_30fps_", "1.2",
    "eq=saturation=0.9:gamma_g=0.95:gamma_b=1.05", Some(30), X264Fast)
  const Neutral := Variant("⚖️ Neutral LUT + 50fps + 1.3x", "neutral_50fps_", "1.3",
    "eq=contrast=1.1:brightness=0.03:saturation=1.0", Some(50), X264Fast)
  const Zoom := Variant("🔎 Zoom + red bar + 1.05x", "zoom_bar_", "1.05",
    "scale=iw*1.05:ih*1.05,crop=iw:ih,drawbox=x=0:y=ih-20:w=iw:h=20:color=red@0.8:t=fill",
    None, X264Fast)
  const Rotate := Variant("⏱ Rotate + saturation + 1.0x", "rotate_sat_", "1.0",
    "eq=saturation=1.1,rotate=2*PI/180:fillcolor=black", None, X264Fast)

  /** Processing and presentation order of the variants. */
  const Table: seq<Variant> := [Warm, Cold, Neutral, Zoom, Rotate]

  const SetptsHead := "[0:v]setpts=PTS/"
  const AtempoHead := "[0:a]atempo="
  const AudioTail := "[a]"

  /** The `-filter_complex` argument of a variant. */
  function FilterGraph(v: Variant): string {
    SetptsHead + v.speed + "," + v.videoChain + "[v];" + AtempoHead + v.speed + AudioTail
  }

  /** A speed factor that cannot be confused with the graph's separators. */
  predicate SpeedWellFormed(k: string) {
    |k| > 0 && ',' !in k && '=' !in k
  }

  predicate HasPrefix(s: string, p: string) {
    |p| <= |s| && s[..|p|] == p
  }

  predicate HasSuffix(s: string, p: string) {
    |p| <= |s| && s[|s| - |p|..] == p
  }

  /** The longest prefix of `s` that does not contain `c`. */
  function TakeUntil(s: string, c: char): (r: string)
    ensures |r| <= |s| && r == s[..|r|]
    ensures c !in r
    ensures |r| < |s| ==> s[|r|] == c
  {
    if |s| == 0 || s[0] == c then [] else [s[0]] + TakeUntil(s[1..], c)
  }

  /** The longest suffix of `s` that does not contain `c`. */
  function TakeLastUntil(s: string, c: char): (r: string)
    ensures |r| <= |s| && r == s[|s| - |r|..]
    ensures c !in r
    ensures |r| < |s| ==> s[|s| - |r| - 1] == c
  {
    if |s| == 0 || s[|s| - 1] == c then []
    else TakeLastUntil(s[..|s| - 1], c) + [s[|s| - 1]]
  }

  /** The factor a graph applies to the video: the text after `setpts=PTS/` up to the first ','. */
  function VideoSpeed(g: string): Option<string> {
    if HasPrefix(g, SetptsHead) then Some(TakeUntil(g[|SetptsHead|..], ',')) else None
  }

  /** The factor a graph applies to the audio: the text of the trailing `atempo=<k>[a]`. */
  function AudioSpeed(g: string): Option<string> {
    if HasSuffix(g, AudioTail) then
      var body := g[..|g| - |AudioTail|];
      var k := TakeLastUntil(body, '=');
      if HasSuffix(body[..|body| - |k|], AtempoHead) then Some(k) else None
    else None
  }

  lemma {:induction false} TakeUntilStopsAtSeparator(a: string, c: char, b: string)
    requires c !in a
    ensures TakeUntil(a + [c] + b, c) == a
    decreases |a|
  {
    if |a| > 0 {
      assert (a + [c] + b)[1..] == a[1..] + [c] + b;
      TakeUntilStopsAtSeparator(a[1..], c, b);
    } else {
      assert (a + [c] + b)[0] == c;
    }
  }

  lemma {:induction false} TakeLastUntilStopsAtSeparator(a: string, c: char, k: string)
    requires c !in k
    ensures TakeLastUntil(a + [c] + k, c) == k
    decreases |k|
  {
    var s := a + [c] + k;
    if |k| > 0 {
      assert s[..|s| - 1] == a + [c] + k[..|k| - 1];
      TakeLastUntilStopsAtSeparator(a, c, k[..|k| - 1]);
      assert k == k[..|k| - 1] + [k[|k| - 1]];
    } else {
      assert s[|s| - 1] == c;
    }
  }

  lemma VideoSpeedOfGraph(v: Variant)
    requires SpeedWellFormed(v.speed)
    ensures VideoSpeed(FilterGraph(v)) == Some(v.speed)
  {
    var g := FilterGraph(v);
    var rest := v.videoChain + "[v];" + AtempoHead + v.speed + AudioTail;
    assert g == SetptsHead + (v.speed + [','] + rest);
    assert g[|SetptsHead|..] == v.speed + [','] + rest;
    TakeUntilStopsAtSeparator(v.speed, ',', rest);
  }

  lemma AudioSpeedOfGraph(v: Variant)
    requires SpeedWellFormed(v.speed)
    ensures AudioSpeed(FilterGraph(v)) == Some(v.speed)
  {
    var g := FilterGraph(v);
    var front := SetptsHead + v.speed + "," + v.videoChain + "[v];" + "[0:a]atempo";
    var eqSign := front + ['='];
    var body := eqSign + v.speed;
    assert g == body + AudioTail;
    assert g[..|g| - |AudioTail|] == body;
    TakeLastUntilStopsAtSeparator(front, '=', v.speed);
    assert body[..|body| - |v.speed|] == eqSign;
    assert eqSign == (SetptsHead + v.speed + "," + v.videoChain + "[v];") + AtempoHead;
  }

  /**
   Every graph built by `FilterGraph` speeds video and audio up by the same
   factor, and that factor is the variant's own.
   */
  lemma SpeedsAgree(v: Variant)
    requires SpeedWellFormed(v.speed)
    ensures VideoSpeed(FilterGraph(v)) == AudioSpeed(FilterGraph(v)) == Some(v.speed)
  {
    VideoSpeedOfGraph(v);
    AudioSpeedOfGraph(v);
  }

  /**
   In every variant the video factor equals the audio factor; the factors
   are 1.1, 1.2, 1.3, 1.05 and 1.0 in table order.
   */
  lemma TableSpeeds()
    ensures |Table| == 5
    ensures forall i :: 0 <= i < |Table| ==>
      VideoSpeed(FilterGraph(Table[i])) == AudioSpeed(FilterGraph(Table[i])) == Some(Table[i].speed)
    ensures [Table[0].speed, Table[1].speed, Table[2].speed, Table[3].speed, Table[4].speed]
      == ["1.1", "1.2", "1.3", "1.05", "1.0"]
  {
    forall i | 0 <= i < |Table|
      ensures VideoSpeed(FilterGraph(Table[i])) == AudioSpeed(FilterGraph(Table[i])) == Some(Table[i].speed)
    {
      SpeedsAgree(Table[i]);
    }
  }

  /**
   Every variant encodes with libx264, preset fast, crf 28; only the first
   three force a frame rate, of 25, 30 and 50 fps.
   */
  lemma TableSettings()
    ensures forall i :: 0 <= i < |Table| ==> Table[i].encoder == Encoder("libx264", "fast", 28)
    ensures forall i :: 0 <= i < |Table| ==> (Table[i].frameRate.Some? <==> i < 3)
    ensures Table[0].frameRate == Some(25)
    ensures Table[1].frameRate == Some(30)
    ensures Table[2].frameRate == Some(50)
  {
  }
}
