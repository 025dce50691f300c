/** How large a manifest can grow. */
module Bounds {
  import opened Model
  import opened Projection
  import opened Recovery
  import opened Chain
  import opened Rotation

  function Past(m: Manifest): nat
    requires m.baselines != []
  {
    |KeepPast(m.segments, Newest(m))|
  }

  /** Fewer than 64 segments past the newest baseline and at most 64 between two baselines. */
  ghost predicate Settled(m: Manifest) {
    && ChainOk(m)
    && Past(m) < SEGMENTS_PER_BASELINE
    && |m.segments| <= Past(m) + (if |m.baselines| == 1 then 0 else SEGMENTS_PER_BASELINE)
  }

  lemma {:induction false} KeepAppend(segments: seq<SegmentArtifact>, a: SegmentArtifact, revision: nat)
    ensures KeepPast(segments + [a], revision) == KeepPast(segments, revision)
        + (if a.through > revision then [a] else [])
  {
    if segments == [] {
      assert segments + [a] == [a] && [a][1..] == [];
    } else {
      assert (segments + [a])[1..] == segments[1..] + [a];
      KeepAppend(segments[1..], a, revision);
    }
  }

  lemma AppendPast(m: Manifest, patch: Patch)
    requires ChainOk(m) && patch.from == m.revision < patch.target
    ensures Past(AppendManifest(m, patch)) == Past(m) + 1
    ensures |AppendManifest(m, patch).segments| == |m.segments| + 1
    ensures NeedsRotation(AppendManifest(m, patch)) <==> Past(m) + 1 >= SEGMENTS_PER_BASELINE
  {
    LinkedGrows(m.segments, Oldest(m), Newest(m));
    KeepAppend(m.segments, SegmentOf(patch), Newest(m));
    AppendChain(m, patch);
    NewestIsNewest(AppendManifest(m, patch));
  }

  lemma ExtensionSettles(m: Manifest, patch: Patch, s: Store)
    requires Settled(m) && patch.from == m.revision < patch.target == s.canon.revision
    ensures var extended := AppendManifest(m, patch);
      && WithinBounds(extended)
      && Settled(if NeedsRotation(extended) then RotateManifest(extended, s) else extended)
  {
    var extended := AppendManifest(m, patch);
    AppendChain(m, patch);
    AppendPast(m, patch);
    LinkedGrows(m.segments, Oldest(m), Newest(m));
    if NeedsRotation(extended) {
      var rotated := RotateManifest(extended, s);
      RotateChain(extended, s);
      RotationResult(extended, s);
      NothingPastEnd(rotated);
      assert |rotated.segments| == Past(extended);
    }
  }

  /** A catch-up that runs to its end leaves a settled manifest, and the manifest it saves on
      the way to a rotation has at most 128 segments, so it loads as well. */
  lemma CatchUpSettles(disk: Disk, s: Store)
    requires LoadManifest(disk).Ok? && Settled(LoadManifest(disk).value)
    requires CatchUpAction(disk, s).Extend? ==>
      var patch := CatchUpAction(disk, s).patch;
      patch.from == LoadManifest(disk).value.revision < patch.target == s.canon.revision
    ensures CatchUpDisk(disk, s).manifest.Saved? && Settled(CatchUpDisk(disk, s).manifest.manifest)
    ensures CatchUpAction(disk, s).Extend? ==>
      WithinBounds(AppendManifest(LoadManifest(disk).value, CatchUpAction(disk, s).patch))
  {
    var m := LoadManifest(disk).value;
    match CatchUpAction(disk, s) {
      case Nothing =>
      case Reset(barrier) => ResetChain(disk, s, barrier);
      case Extend(patch) => ExtensionSettles(m, patch, s);
    }
  }

  /** What loads: a saved manifest with at most two baselines and 128 segments. */
  lemma LoadedExactly(disk: Disk)
    ensures LoadManifest(disk).Ok? <==>
      disk.manifest.Saved? && |disk.manifest.manifest.baselines| <= 2 && |disk.manifest.manifest.segments| <= 128
    ensures LoadManifest(disk) == if LoadManifest(disk).Ok? then Ok(disk.manifest.manifest) else Err(CorruptStore)
  {
  }

  // ---------- interrupted rotations ----------

  /** The manifest after catch-ups with these patches none of which got to save a rotation. */
  function AppendAll(m: Manifest, patches: seq<Patch>): Manifest
    decreases |patches|
  {
    if patches == [] then m else AppendAll(AppendManifest(m, patches[0]), patches[1..])
  }

  /** Every interrupted rotation leaves its segment behind. However many there are in a row, the
      manager loads the manifest it has saved exactly when the segments it started from and the
      appended ones are at most 128, and a rotation stays due from 64 past the newest baseline on. */
  lemma {:induction false} InterruptedRotations(m: Manifest, patches: seq<Patch>, end: nat)
    requires ChainOk(m) && Follows(patches, m.revision, end)
    ensures var n := AppendAll(m, patches);
      && ChainOk(n) && n.revision == end
      && |n.segments| == |m.segments| + |patches| && Past(n) == Past(m) + |patches|
      && (WithinBounds(n) <==> |m.segments| + |patches| <= 128)
      && (patches != [] ==> (NeedsRotation(n) <==> Past(m) + |patches| >= 64))
    decreases |patches|
  {
    if patches != [] {
      var next := AppendManifest(m, patches[0]);
      AppendChain(m, patches[0]);
      AppendPast(m, patches[0]);
      InterruptedRotations(next, patches[1..], end);
    }
  }

  /** So a settled manifest survives one interrupted rotation, and is lost to the manager after
      more of them in a row than are left up to 128 segments: two from a full chain. */
  lemma HarmlessInterruptions(m: Manifest, patches: seq<Patch>, end: nat)
    requires Settled(m) && Follows(patches, m.revision, end)
    ensures |patches| <= 1 ==> WithinBounds(AppendAll(m, patches))
    ensures |m.segments| == 127 ==> (WithinBounds(AppendAll(m, patches)) <==> |patches| <= 1)
  {
    InterruptedRotations(m, patches, end);
  }
}
