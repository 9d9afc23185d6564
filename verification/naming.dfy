/**
 Job-scoped file names. A job is identified by the id of the message that
 carried the video; its input is `input_video_<id>.mp4` and each variant's
 output is the variant's prefix followed by `video_<id>.mp4`.
 */
module Naming {
  import opened Decimal
  import opened Variants
  import opened FileSystem

  const VideoStem := "video_"
  const Extension := ".mp4"
  const InputPrefix := "input_"

  /** `f"video_{message.message_id}.mp4"` */
  function FileName(id: int): string {
    VideoStem + IntToString(id) + Extension
  }

  function Prefixed(prefix: string, id: int): string {
    prefix + FileName(id)
  }

  function InputPath(id: int): string {
    Prefixed(InputPrefix, id)
  }

  function OutputPath(v: Variant, id: int): string {
    Prefixed(v.prefix, id)
  }

  /** Every path a job writes: its input, then its outputs in table order. */
  function JobPaths(id: int): (ps: seq<string>)
    ensures |ps| == 1 + |Table|
    ensures ps[0] == InputPath(id)
    ensures forall i :: 0 <= i < |Table| ==> ps[i + 1] == OutputPath(Table[i], id)
  {
    [InputPath(id)] + seq(|Table|, i requires 0 <= i < |Table| => OutputPath(Table[i], id))
  }

  /** The prefixes of `JobPaths`, in the same order. */
  const JobPrefixes: seq<string> :=
    [InputPrefix, Warm.prefix, Cold.prefix, Neutral.prefix, Zoom.prefix, Rotate.prefix]

  /** Under one prefix, the path determines the message id. */
  lemma PrefixedInjective(p: string, a: int, b: int)
    ensures Prefixed(p, a) == Prefixed(p, b) <==> a == b
  {
    if Prefixed(p, a) == Prefixed(p, b) {
      var x := Prefixed(p, a);
      var sa := IntToString(a);
      var sb := IntToString(b);
      var lo := |p| + |VideoStem|;
      assert x == (p + VideoStem) + sa + Extension;
      assert x == (p + VideoStem) + sb + Extension;
      assert |sa| == |sb|;
      assert x[lo..lo + |sa|] == sa;
      assert x[lo..lo + |sb|] == sb;
      IntToStringInjective(a, b);
    }
  }

  /** The first character of a path is its prefix's first character. */
  lemma PathLead(p: string, id: int)
    requires |p| > 0
    ensures Prefixed(p, id)[0] == p[0]
  {
  }

  lemma JobPathsByPrefix(id: int, k: nat)
    requires k < |JobPrefixes|
    ensures |JobPrefixes[k]| > 0
    ensures JobPaths(id)[k] == Prefixed(JobPrefixes[k], id)
  {
  }

  lemma JobPrefixLeadsDistinct(k: nat, l: nat)
    requires k < |JobPrefixes| && l < |JobPrefixes| && k != l
    ensures |JobPrefixes[k]| > 0 && |JobPrefixes[l]| > 0
    ensures JobPrefixes[k][0] != JobPrefixes[l][0]
  {
  }

  /**
   Two job paths coincide only when they are the same slot of the same job:
   the six paths of one job are pairwise distinct, and jobs for different
   message ids share no path.
   */
  lemma JobPathsUnique(a: int, b: int, i: nat, j: nat)
    requires i < |JobPaths(a)| && j < |JobPaths(b)|
    ensures JobPaths(a)[i] == JobPaths(b)[j] <==> a == b && i == j
  {
    JobPathsByPrefix(a, i);
    JobPathsByPrefix(b, j);
    if i == j {
      PrefixedInjective(JobPrefixes[i], a, b);
    } else {
      JobPrefixLeadsDistinct(i, j);
      PathLead(JobPrefixes[i], a);
      PathLead(JobPrefixes[j], b);
    }
  }

  lemma JobPathsDistinct(id: int)
    ensures Distinct(JobPaths(id))
  {
    forall i, j | 0 <= i < j < |JobPaths(id)| ensures JobPaths(id)[i] != JobPaths(id)[j] {
      JobPathsUnique(id, id, i, j);
    }
  }

  lemma JobPathsDisjoint(a: int, b: int)
    requires a != b
    ensures forall p :: p in JobPaths(a) ==> p !in JobPaths(b)
  {
    forall p | p in JobPaths(a) ensures p !in JobPaths(b) {
      var i :| 0 <= i < |JobPaths(a)| && JobPaths(a)[i] == p;
      forall j | 0 <= j < |JobPaths(b)| ensures JobPaths(b)[j] != p {
        JobPathsUnique(a, b, i, j);
      }
    }
  }
}
