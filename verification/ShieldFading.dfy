/** How a shield ends: when its surroundings no longer fit its anchors it is gone after the short
    decay time, and nothing else on the list notices. */
module ShieldFading {
  import opened Geometry
  import opened Frames
  import opened Anchors
  import opened AnchorScores
  import opened AnchorTracker
  import opened AnchorRuns

  // ---------- A shield next to the others ----------

  /** A detection that misses a shield does to the other shields what it would do without it. */
  lemma {:induction false} IngestedBeside(frame: Frame, pre: seq<TrackedShield>, s: TrackedShield,
                                          post: seq<TrackedShield>, det: BoundingBox, now: nat, config: AnchorConfig)
    returns (pre': seq<TrackedShield>, post': seq<TrackedShield>)
    requires !s.box.Overlaps(det, config.mergeIouThreshold)
    ensures Ingested(frame, pre + post, det, now, config) == pre' + post'
    ensures Ingested(frame, pre + [s] + post, det, now, config) == pre' + [s] + post'
    decreases |pre|
  {
    hide BoundingBox.Overlaps, Refreshed, NewShield, Ingested;
    if pre == [] {
      assert [] + [s] + post == [s] + post && [] + post == post;
      IngestedHead(frame, s, post, det, now, config);
      pre', post' := [], Ingested(frame, post, det, now, config);
    } else {
      var head, tail := pre[0], pre[1..];
      assert pre == [head] + tail;
      Longer(head, tail, s, post);
      IngestedHead(frame, head, tail + [s] + post, det, now, config);
      IngestedHead(frame, head, tail + post, det, now, config);
      if head.box.Overlaps(det, config.mergeIouThreshold) {
        var moved := Refreshed(frame, head, det, now, config);
        Longer(moved, tail, s, post);
        pre', post' := [moved] + tail, post;
      } else {
        var left, right := IngestedBeside(frame, tail, s, post, det, now, config);
        Longer(head, left, s, right);
        pre', post' := [head] + left, right;
      }
    }
  }

  lemma Longer(head: TrackedShield, left: seq<TrackedShield>, s: TrackedShield, right: seq<TrackedShield>)
    ensures [head] + left + right == [head] + (left + right)
    ensures [head] + left + [s] + right == [head] + (left + [s] + right)
  {
  }

  lemma IngestedHead(frame: Frame, head: TrackedShield, tail: seq<TrackedShield>, det: BoundingBox, now: nat,
                     config: AnchorConfig)
    ensures Ingested(frame, [head] + tail, det, now, config)
         == if head.box.Overlaps(det, config.mergeIouThreshold) then [Refreshed(frame, head, det, now, config)] + tail
            else [head] + Ingested(frame, tail, det, now, config)
  {
    hide BoundingBox.Overlaps, Refreshed, NewShield;
    assert ([head] + tail)[1..] == tail;
  }

  lemma {:induction false} AllIngestedBeside(frame: Frame, pre: seq<TrackedShield>, s: TrackedShield,
                                             post: seq<TrackedShield>, dets: seq<BoundingBox>, now: nat,
                                             config: AnchorConfig)
    returns (pre': seq<TrackedShield>, post': seq<TrackedShield>)
    requires Unmatched(s.box, dets, config)
    ensures AllIngested(frame, pre + post, dets, now, config) == pre' + post'
    ensures AllIngested(frame, pre + [s] + post, dets, now, config) == pre' + [s] + post'
    decreases |dets|
  {
    hide BoundingBox.Overlaps, Ingested;
    pre', post' := pre, post;
    if dets != [] {
      assert dets[0] in dets;
      pre', post' := IngestedBeside(frame, pre, s, post, dets[0], now, config);
      pre', post' := AllIngestedBeside(frame, pre', s, post', dets[1..], now, config);
    }
  }

  lemma EvaluatedAround(frame: Frame, pre: seq<TrackedShield>, s: TrackedShield, post: seq<TrackedShield>, now: nat,
                        config: AnchorConfig)
    ensures var e := AllEvaluated(frame, [s], now, config)[0];
            AllEvaluated(frame, pre + [s] + post, now, config)
            == AllEvaluated(frame, pre, now, config) + [e] + AllEvaluated(frame, post, now, config)
    ensures AllEvaluated(frame, pre + post, now, config)
         == AllEvaluated(frame, pre, now, config) + AllEvaluated(frame, post, now, config)
  {
    hide Evaluated;
  }

  /** Its last match or lock lies back less than its limit, and not in the future. */
  predicate Alive(s: TrackedShield, now: nat, config: AnchorConfig) {
    s.lastSeenMs <= now < s.lastSeenMs + (if s.isStatic then config.persistenceWindowMs else config.dynamicDecayMs)
  }

  /** One frame: a shield that no detection matches is judged by its own evaluation alone, and the
      others fare as if it were not there. */
  lemma FrameBeside(frame: Frame, pre: seq<TrackedShield>, s: TrackedShield, post: seq<TrackedShield>,
                    dets: seq<BoundingBox>, now: nat, config: AnchorConfig)
    returns (pre': seq<TrackedShield>, post': seq<TrackedShield>)
    requires Unmatched(AllEvaluated(frame, [s], now, config)[0].box, dets, config)
    ensures var e := AllEvaluated(frame, [s], now, config)[0];
            && Shields(frame, pre + post, dets, now, config) == pre' + post'
            && Shields(frame, pre + [s] + post, dets, now, config)
               == pre' + (if Alive(e, now, config) then [e] else []) + post'
  {
    hide Evaluated, AllIngested, Purged, Unmatched;
    EvaluatedAround(frame, pre, s, post, now, config);
    var e := AllEvaluated(frame, [s], now, config)[0];
    pre', post' := AllIngestedBeside(frame, AllEvaluated(frame, pre, now, config), e,
                                     AllEvaluated(frame, post, now, config), dets, now, config);
    PurgedConcat(pre', post', now, config);
    PurgedConcat(pre' + [e], post', now, config);
    PurgedConcat(pre', [e], now, config);
    OnePurged(e, now, config);
    pre', post' := Purged(pre', now, config), Purged(post', now, config);
  }

  lemma OnePurged(s: TrackedShield, now: nat, config: AnchorConfig)
    ensures Purged([s], now, config) == if Alive(s, now, config) then [s] else []
  {
  }

  // ---------- Surroundings that changed ----------

  /** The frame's pixels neither hold the shield where it is nor show where it has scrolled to. */
  ghost predicate Lost(frame: Frame, anchors: seq<AnchorPixel>, config: AnchorConfig) {
    HasPixels(frame) &&
    (anchors == [] ||
     (Score(frame, anchors, 0) >= config.anchorErrorThreshold
      && forall o :: Tried(o) ==> !FitsAt(frame, anchors, o)))
  }

  /** Colours that differ by the threshold on average where the anchors are, and by 8 at every
      offset tried, are enough; so is having fewer than four anchors left in the frame. */
  lemma ChangedIsLost(frame: Frame, anchors: seq<AnchorPixel>, config: AnchorConfig)
    requires HasPixels(frame) && config.anchorErrorThreshold <= 999.0
    requires |Fallen(frame, anchors, 0)| < 4 || ErrorsWithin(frame, anchors, 0, config.anchorErrorThreshold, 255.0)
    requires forall o :: Tried(o) ==> |Fallen(frame, anchors, o)| < 4 || ErrorsWithin(frame, anchors, o, 8.0, 255.0)
    ensures Lost(frame, anchors, config)
  {
    hide Fallen, ErrorsWithin, Score, Tried;
    if |Fallen(frame, anchors, 0)| < 4 { ScoreWithout(frame, anchors, 0); }
    else { ScoreBounds(frame, anchors, 0, config.anchorErrorThreshold, 255.0); }
    forall o | Tried(o) ensures !FitsAt(frame, anchors, o) {
      if |Fallen(frame, anchors, o)| < 4 { ScoreWithout(frame, anchors, o); }
      else { ScoreBounds(frame, anchors, o, 8.0, 255.0); }
    }
  }

  lemma LostEvaluated(frame: Frame, s: TrackedShield, now: nat, config: AnchorConfig)
    requires Lost(frame, s.anchors, config)
    ensures AllEvaluated(frame, [s], now, config)[0] == s.(isStatic := false)
  {
    hide Score, FitsAt;
    if s.anchors != [] {
      FollowsScrollIff(frame, s, now, config);
      hide Evaluated;
    }
  }

  lemma BlindEvaluated(frame: Frame, s: TrackedShield, now: nat, config: AnchorConfig)
    requires !HasPixels(frame)
    ensures AllEvaluated(frame, [s], now, config)[0] == s
  {
  }

  // ---------- Whole runs ----------

  /** A captured frame, its detections and the time. */
  datatype Shot = Shot(frame: Frame, dets: seq<BoundingBox>, now: nat)

  function Onward(shields: seq<TrackedShield>, shots: seq<Shot>, config: AnchorConfig): seq<TrackedShield> {
    if shots == [] then shields
    else
      var n := |shots| - 1;
      Shields(shots[n].frame, Onward(shields, shots[..n], config), shots[n].dets, shots[n].now, config)
  }

  ghost predicate AlwaysAlive(s: TrackedShield, shots: seq<Shot>, config: AnchorConfig) {
    forall k :: 0 <= k < |shots| ==> Alive(s, shots[k].now, config)
  }

  /** A shield that no detection matches and whose surroundings stay changed loses its lock at
      once, stays where it is until the dynamic decay time after it was last seen, and is gone
      from the first frame after that on; the other shields fare as without it. */
  lemma {:induction false} Fades(pre: seq<TrackedShield>, s: TrackedShield, post: seq<TrackedShield>, shots: seq<Shot>,
                                 config: AnchorConfig)
    returns (pre': seq<TrackedShield>, post': seq<TrackedShield>)
    requires shots != [] && forall k :: 0 <= k < |shots| ==>
                              Lost(shots[k].frame, s.anchors, config) && Unmatched(s.box, shots[k].dets, config)
    ensures Onward(pre + post, shots, config) == pre' + post'
    ensures Onward(pre + [s] + post, shots, config)
         == pre' + (if forall k :: 0 <= k < |shots| ==>
                         s.lastSeenMs <= shots[k].now < s.lastSeenMs + config.dynamicDecayMs
                    then [s.(isStatic := false)] else []) + post'
    decreases |shots|
  {
    hide Lost, Unmatched, Shields, AllEvaluated, Onward;
    var n := |shots| - 1;
    OnwardStep(pre + post, shots, config);
    OnwardStep(pre + [s] + post, shots, config);
    var faded := s.(isStatic := false);
    if n == 0 {
      LostEvaluated(shots[0].frame, s, shots[0].now, config);
      pre', post' := FrameBeside(shots[0].frame, pre, s, post, shots[0].dets, shots[0].now, config);
    } else {
      pre', post' := Fades(pre, s, post, shots[..n], config);
      LostEvaluated(shots[n].frame, faded, shots[n].now, config);
      if forall k :: 0 <= k < n ==> s.lastSeenMs <= shots[k].now < s.lastSeenMs + config.dynamicDecayMs {
        pre', post' := FrameBeside(shots[n].frame, pre', faded, post', shots[n].dets, shots[n].now, config);
      } else {
        assert pre' + [] + post' == pre' + post';
        pre', post' := Shields(shots[n].frame, pre' + post', shots[n].dets, shots[n].now, config), [];
        assert pre' + [] + post' == pre';
      }
    }
  }

  lemma OnwardStep(shields: seq<TrackedShield>, shots: seq<Shot>, config: AnchorConfig)
    ensures Onward(shields, [], config) == shields
    ensures shots != [] ==>
              var n := |shots| - 1;
              Onward(shields, shots, config)
              == Shields(shots[n].frame, Onward(shields, shots[..n], config), shots[n].dets, shots[n].now, config)
    ensures |shots| == 1 ==> shots[..0] == []
  {
  }

  /** Without pixel data a shield that nothing matches keeps its lock, and stays until the limit
      that goes with it. */
  lemma {:induction false} Lingers(pre: seq<TrackedShield>, s: TrackedShield, post: seq<TrackedShield>,
                                   shots: seq<Shot>, config: AnchorConfig)
    returns (pre': seq<TrackedShield>, post': seq<TrackedShield>)
    requires forall k :: 0 <= k < |shots| ==>
               !HasPixels(shots[k].frame) && Unmatched(s.box, shots[k].dets, config)
    ensures Onward(pre + post, shots, config) == pre' + post'
    ensures var limit := if s.isStatic then config.persistenceWindowMs else config.dynamicDecayMs;
            Onward(pre + [s] + post, shots, config)
            == pre' + (if forall k :: 0 <= k < |shots| ==> s.lastSeenMs <= shots[k].now < s.lastSeenMs + limit
                       then [s] else []) + post'
    decreases |shots|
  {
    hide Unmatched, Shields, AllEvaluated, Onward;
    var n := |shots| - 1;
    OnwardStep(pre + post, shots, config);
    OnwardStep(pre + [s] + post, shots, config);
    pre', post' := pre, post;
    if shots != [] {
      pre', post' := Lingers(pre, s, post, shots[..n], config);
      BlindEvaluated(shots[n].frame, s, shots[n].now, config);
      var limit := if s.isStatic then config.persistenceWindowMs else config.dynamicDecayMs;
      if forall k :: 0 <= k < n ==> s.lastSeenMs <= shots[k].now < s.lastSeenMs + limit {
        pre', post' := FrameBeside(shots[n].frame, pre', s, post', shots[n].dets, shots[n].now, config);
      } else {
        assert pre' + [] + post' == pre' + post';
        pre', post' := Shields(shots[n].frame, pre' + post', shots[n].dets, shots[n].now, config), [];
        assert pre' + [] + post' == pre';
      }
    }
  }
}
