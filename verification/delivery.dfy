/**
 Sending the variants back: one reply per entry of the outputs list, in
 list order. An entry whose file exists and is non-empty is sent as a video
 with the entry's caption; any other entry gets a text notice naming its
 path.
 */
module Delivery {
  import opened Telegram
  import opened FileSystem
  import opened Transcoder

  /** `f"⚠️ Ошибка: файл {path} пустой или не создан."` */
  function MissingNotice(path: string): string {
    "⚠️ Ошибка: файл " + path + " пустой или не создан."
  }

  function ReplyFor(fs: FS, o: Output): Reply {
    if HasContent(fs, o.path) then VideoReply(o.path, o.caption) else TextReply(MissingNotice(o.path))
  }

  /** The replies of the delivery loop: entry `i` of the outputs list yields reply `i`. */
  function Deliver(fs: FS, outs: seq<Output>): (rs: seq<Reply>)
    ensures |rs| == |outs|
    ensures forall i :: 0 <= i < |outs| ==>
      (rs[i].VideoReply? <==> HasContent(fs, outs[i].path))
    ensures forall i :: 0 <= i < |outs| && rs[i].VideoReply? ==>
      rs[i] == VideoReply(outs[i].path, outs[i].caption)
    ensures forall i :: 0 <= i < |outs| && rs[i].TextReply? ==>
      rs[i] == TextReply(MissingNotice(outs[i].path))
  {
    if |outs| == 0 then [] else [ReplyFor(fs, outs[0])] + Deliver(fs, outs[1..])
  }

  /** The `for caption, path in outputs` loop, reply by reply. */
  method DeliverEach(fs: FS, outs: seq<Output>) returns (rs: seq<Reply>)
    ensures rs == Deliver(fs, outs)
  {
    rs := [];
    var i := 0;
    while i < |outs|
      invariant 0 <= i <= |outs|
      invariant |rs| == i
      invariant forall k :: 0 <= k < i ==> rs[k] == ReplyFor(fs, outs[k])
    {
      var o := outs[i];
      if HasContent(fs, o.path) {
        rs := rs + [VideoReply(o.path, o.caption)];
      } else {
        rs := rs + [TextReply(MissingNotice(o.path))];
      }
      i := i + 1;
    }
  }

  /** The number of videos sent is the number of outputs with content. */
  function CountWithContent(fs: FS, outs: seq<Output>): nat {
    if |outs| == 0 then 0
    else (if HasContent(fs, outs[0].path) then 1 else 0) + CountWithContent(fs, outs[1..])
  }

  function CountVideos(rs: seq<Reply>): nat {
    if |rs| == 0 then 0 else (if rs[0].VideoReply? then 1 else 0) + CountVideos(rs[1..])
  }

  lemma {:induction false} DeliverCounts(fs: FS, outs: seq<Output>)
    ensures CountVideos(Deliver(fs, outs)) == CountWithContent(fs, outs)
    ensures |Deliver(fs, outs)| - CountVideos(Deliver(fs, outs)) == |outs| - CountWithContent(fs, outs)
    decreases |outs|
  {
    if |outs| > 0 {
      var rs := Deliver(fs, outs);
      assert rs[1..] == Deliver(fs, outs[1..]);
      DeliverCounts(fs, outs[1..]);
      assert CountVideos(rs) == (if rs[0].VideoReply? then 1 else 0) + CountVideos(rs[1..]);
    }
  }
}
