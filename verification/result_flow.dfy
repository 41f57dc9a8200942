/**
 The decision handler of the result screen: the user consumes or rejects
 the scanned product, the scan is saved to the device queue first, the
 app returns to the main screen, and then a best-effort create is sent to
 the server. The handler is modelled as one step over the screen's busy
 flag and the device store, returning the trace of effects it causes.
 */
module ResultFlow {
  import opened Wrappers
  import opened ScanTypes
  import LocalScans
  import Js
  import ScanRoutes

  /** The two gestures the result card reports. */
  datatype Gesture = Consume | Reject

  /** `action === 'consume' ? 'consumed' : 'rejected'`. */
  function Decide(g: Gesture): (a: Action)
    ensures a == Consumed <==> g == Consume
  {
    if g == Consume then Consumed else Rejected
  }

  /** Deciding loses nothing: distinct gestures give distinct actions. */
  lemma DecideInjective(g1: Gesture, g2: Gesture)
    requires Decide(g1) == Decide(g2)
    ensures g1 == g2
  {
  }

  /** What the screen shows: the draft record the pipeline produced. */
  datatype Card = Card(context: ScanContext, score: SustainabilityScore)

  /** One observable effect of the handler, in the order it happens. */
  datatype Effect =
    | ProcessingSet(on: bool)
    | LocalSaveAttempted(req: LocalScans.AddRequest)
    | ResetToMain
    | CreateRequested(context: ScanContext, score: SustainabilityScore, action: Action)
    | NetworkWarned

  /**
   The collaborators' answers for one call: the clock, the fresh local id
   and ISO stamps, whether the local rewrite succeeds and whether the
   network create succeeds.
   */
  datatype Env = Env(nowMs: int, freshId: string, createdIso: string, updatedIso: string,
                     saveWriteOk: bool, createOk: bool)

  /** The screen's busy flag and the device queue after the handler, and what it did. */
  datatype Handled = Handled(processing: bool, disk: LocalScans.Disk, effects: seq<Effect>)

  /** The save request the handler sends to the device queue. */
  function SaveRequest(card: Card, action: Action, userId: Option<string>, nowMs: int): LocalScans.AddRequest {
    LocalScans.AddRequest(card.context, card.score, action, Some(nowMs), Some(true),
                          Some(if userId.Some? && userId.value != "" then userId.value else LocalScans.LocalUserId))
  }

  /**
   `handleAction`: ignored while busy; otherwise mark busy, save locally
   (a failure is swallowed), reset navigation to Main, send the create
   (a failure only logs a warning), and clear the busy flag.
   */
  function HandleAction(processing: bool, disk: LocalScans.Disk, gesture: Gesture, card: Card,
                        userId: Option<string>, env: Env): (h: Handled)
    ensures processing ==> h == Handled(true, disk, [])
    ensures !processing ==>
      && !h.processing
      && |h.effects| >= 5
      && h.effects[0] == ProcessingSet(true)
      && h.effects[|h.effects| - 1] == ProcessingSet(false)
      && h.effects[1].LocalSaveAttempted?
      && h.effects[2] == ResetToMain
      && h.effects[3] == CreateRequested(card.context, card.score, Decide(gesture))
      && (NetworkWarned in h.effects <==> !env.createOk)
  {
    if processing then Handled(true, disk, [])
    else
      var action := Decide(gesture);
      var req := SaveRequest(card, action, userId, env.nowMs);
      var saved := LocalScans.Add(disk, req, env.freshId, env.nowMs, env.createdIso, env.updatedIso, env.saveWriteOk);
      var disk' := if saved.Added? then saved.disk else disk;
      var effects := [ProcessingSet(true), LocalSaveAttempted(req), ResetToMain,
                      CreateRequested(card.context, card.score, action)]
                     + (if env.createOk then [] else [NetworkWarned])
                     + [ProcessingSet(false)];
      Handled(false, disk', effects)
  }

  /** How many times `e` occurs in a trace. */
  function Count(effects: seq<Effect>, e: Effect): (n: nat)
    ensures n <= |effects|
    ensures n == 0 <==> e !in effects
    decreases |effects|
  {
    if |effects| == 0 then 0
    else (if effects[0] == e then 1 else 0) + Count(effects[1..], e)
  }

  /** An effect found at exactly one position is counted once. */
  lemma {:induction false} CountUnique(t: seq<Effect>, e: Effect, i: nat)
    requires i < |t| && t[i] == e
    requires forall j :: 0 <= j < |t| && j != i ==> t[j] != e
    ensures Count(t, e) == 1
    decreases i
  {
    if i == 0 {
      assert e !in t[1..] by {
        forall j | 0 <= j < |t[1..]| ensures t[1..][j] != e {
          assert t[1..][j] == t[j + 1];
        }
      }
    } else {
      forall j | 0 <= j < |t[1..]| && j != i - 1 ensures t[1..][j] != e {
        assert t[1..][j] == t[j + 1];
      }
      CountUnique(t[1..], e, i - 1);
    }
  }

  /** The shape of every handled trace counts each of the three fixed effects once. */
  lemma TraceCountsOnce(save: Effect, create: Effect, mid: seq<Effect>, e: Effect)
    requires save.LocalSaveAttempted? && create.CreateRequested?
    requires mid == [] || mid == [NetworkWarned]
    requires e == ResetToMain || e == ProcessingSet(true) || e == ProcessingSet(false)
    ensures Count([ProcessingSet(true), save, ResetToMain, create] + mid + [ProcessingSet(false)], e) == 1
  {
    var t := [ProcessingSet(true), save, ResetToMain, create] + mid + [ProcessingSet(false)];
    var i := if e == ProcessingSet(true) then 0 else if e == ResetToMain then 2 else |t| - 1;
    CountUnique(t, e, i);
  }

  /**
   Whatever the collaborators answer, a handled gesture resets navigation
   exactly once and sets and clears the busy flag exactly once each.
   */
  lemma ResetExactlyOnce(disk: LocalScans.Disk, gesture: Gesture, card: Card, userId: Option<string>, env: Env)
    ensures var h := HandleAction(false, disk, gesture, card, userId, env);
      && Count(h.effects, ResetToMain) == 1
      && Count(h.effects, ProcessingSet(true)) == 1
      && Count(h.effects, ProcessingSet(false)) == 1
  {
    var h := HandleAction(false, disk, gesture, card, userId, env);
    var save := h.effects[1];
    var create := h.effects[3];
    var mid := if env.createOk then [] else [NetworkWarned];
    assert h.effects == [ProcessingSet(true), save, ResetToMain, create] + mid + [ProcessingSet(false)];
    TraceCountsOnce(save, create, mid, ResetToMain);
    TraceCountsOnce(save, create, mid, ProcessingSet(true));
    TraceCountsOnce(save, create, mid, ProcessingSet(false));
  }

  /**
   The local save carries the card's context and score, the decided
   action, the current time, `pending: true` and an owner that is never
   empty; a failing save leaves the queue as it was and changes nothing
   else in the trace.
   */
  lemma LocalSaveFirst(disk: LocalScans.Disk, gesture: Gesture, card: Card, userId: Option<string>, env: Env)
    ensures var h := HandleAction(false, disk, gesture, card, userId, env);
      var req := h.effects[1].req;
      && req.context == card.context && req.score == card.score
      && req.action == Decide(gesture)
      && req.timestamp == Some(env.nowMs) && req.pending == Some(true)
      && req.userId.Some? && req.userId.value != ""
      && (userId.Some? && userId.value != "" ==> req.userId == userId)
      && (!env.saveWriteOk ==> h.disk == disk)
      && h.effects == HandleAction(false, disk, gesture, card, userId, env.(saveWriteOk := !env.saveWriteOk)).effects
  {
  }

  /**
   The record the handler saves is the queue's newest entry, and it stays
   pending: nothing in the flow marks it synced, whether or not the
   network create succeeds.
   */
  lemma SavedRecordStaysPending(disk: LocalScans.Disk, gesture: Gesture, card: Card, userId: Option<string>, env: Env)
    requires env.saveWriteOk
    ensures var h := HandleAction(false, disk, gesture, card, userId, env);
      var items := LocalScans.ReadAll(h.disk);
      && |items| == |LocalScans.ReadAll(disk)| + 1
      && items[0].id == env.freshId
      && items[0].pending == Some(true)
      && items[0].action == Decide(gesture)
      && items[1..] == LocalScans.ReadAll(disk)
  {
  }

  // ---------------------------------------------------------------------
  // The create request as the server receives it
  // ---------------------------------------------------------------------

  /** The names of the optional context fields. */
  const OptionalKeys: set<string> := {"ocr_text", "brand_text", "image", "image_thumb", "user_note"}

  /** The optional context field with the given name, if that is one. */
  function OptionalValue(c: ScanContext, name: string): Option<string> {
    if name == "ocr_text" then c.ocr_text
    else if name == "brand_text" then c.brand_text
    else if name == "image" then c.image
    else if name == "image_thumb" then c.image_thumb
    else if name == "user_note" then c.user_note
    else None
  }

  /** `v` is the JSON array of exactly `labels`, in order. */
  predicate LabelsJson(v: Js.Value, labels: seq<string>) {
    && v.Arr? && |v.items| == |labels|
    && forall i :: 0 <= i < |labels| ==> v.items[i] == Js.Str(labels[i])
  }

  /** The JSON form of a breakdown. */
  function BreakdownJson(b: Breakdown): Js.Value {
    Js.Obj(map["materials" := Js.Number(Js.Finite(b.materials)),
               "packaging" := Js.Number(Js.Finite(b.packaging)),
               "certifications" := Js.Number(Js.Finite(b.certifications)),
               "category_baseline" := Js.Number(Js.Finite(b.category_baseline))])
  }

  /**
   The JSON form of an assessment. The factors, suggestion and disposal
   travel too; the server ignores them, so they are summarised as an array
   of the right length and two strings.
   */
  function ScoreJson(s: SustainabilityScore): Js.Value {
    Js.Obj(map["score" := Js.Number(Js.Finite(s.score)),
               "breakdown" := BreakdownJson(s.breakdown),
               "top_factors" := Js.Arr(seq(|s.top_factors|, _ => Js.Obj(map[]))),
               "suggestion" := Js.Str(s.suggestion),
               "disposal" := Js.Str(s.disposal)])
  }

  /**
   The body the client's `createScan` posts: the context's fields spread
   at the top level, then the whole assessment as `score`, then `action`.
   The network client itself is not part of this model.
   */
  function CreateBody(c: ScanContext, s: SustainabilityScore, a: Action): map<string, Js.Value> {
    ContextJson(c) + map["score" := ScoreJson(s), "action" := Js.Str(ActionName(a))]
  }

  /** The context's fields as the client spreads them into the body. */
  function ContextJson(c: ScanContext): map<string, Js.Value> {
    RequiredContextJson(c) + OptionalContextJson(c)
  }

  /** The three context fields every analysis carries. */
  function RequiredContextJson(c: ScanContext): map<string, Js.Value> {
    map["detected_labels" := Js.Arr(seq(|c.detected_labels|, i requires 0 <= i < |c.detected_labels| => Js.Str(c.detected_labels[i]))),
        "packaging_type" := Js.Str(c.packaging_type),
        "material_hints" := Js.Str(c.material_hints)]
  }

  /** The optional context fields, present only when set. */
  function OptionalContextJson(c: ScanContext): (m: map<string, Js.Value>)
    ensures m.Keys <= OptionalKeys
    ensures "ocr_text" in m <==> c.ocr_text.Some?
    ensures "brand_text" in m <==> c.brand_text.Some?
    ensures "image" in m <==> c.image.Some?
    ensures "image_thumb" in m <==> c.image_thumb.Some?
    ensures "user_note" in m <==> c.user_note.Some?
    ensures c.ocr_text.Some? ==> m["ocr_text"] == Js.Str(c.ocr_text.value)
    ensures c.brand_text.Some? ==> m["brand_text"] == Js.Str(c.brand_text.value)
    ensures c.image.Some? ==> m["image"] == Js.Str(c.image.value)
    ensures c.image_thumb.Some? ==> m["image_thumb"] == Js.Str(c.image_thumb.value)
    ensures c.user_note.Some? ==> m["user_note"] == Js.Str(c.user_note.value)
  {
    map k | k in OptionalKeys && OptionalValue(c, k).Some? :: Js.Str(OptionalValue(c, k).value)
  }

  /** The context's three required fields keep their values when the optional ones are added. */
  lemma ContextJsonFields(c: ScanContext)
    ensures "detected_labels" in ContextJson(c) && LabelsJson(ContextJson(c)["detected_labels"], c.detected_labels)
    ensures "packaging_type" in ContextJson(c) && ContextJson(c)["packaging_type"] == Js.Str(c.packaging_type)
    ensures "material_hints" in ContextJson(c) && ContextJson(c)["material_hints"] == Js.Str(c.material_hints)
  {
    var opt := OptionalContextJson(c);
    assert "detected_labels" !in opt && "packaging_type" !in opt && "material_hints" !in opt;
  }

  /** The fields of the client's body that the server's validation reads. */
  lemma CreateBodyFields(c: ScanContext, s: SustainabilityScore, a: Action)
    ensures var p := ScanRoutes.PayloadOf(CreateBody(c, s, a));
      && p.score == ScoreJson(s)
      && LabelsJson(p.detected_labels, c.detected_labels)
      && p.packaging_type == Js.Str(c.packaging_type)
      && p.material_hints == Js.Str(c.material_hints)
      && p.action == Js.Str(ActionName(a))
  {
    var tail := map["score" := ScoreJson(s), "action" := Js.Str(ActionName(a))];
    var body := ContextJson(c) + tail;
    assert body == CreateBody(c, s, a);
    ContextJsonFields(c);
    assert tail.Keys == {"score", "action"};
    KeptFromLeft(ContextJson(c), tail, "detected_labels");
    KeptFromLeft(ContextJson(c), tail, "packaging_type");
    KeptFromLeft(ContextJson(c), tail, "material_hints");
    assert body["score"] == ScoreJson(s) && body["action"] == Js.Str(ActionName(a));
  }

  /** A field of the left map that the right one lacks survives the union. */
  lemma KeptFromLeft(left: map<string, Js.Value>, right: map<string, Js.Value>, k: string)
    requires k in left && k !in right
    ensures Js.BodyField(left + right, k) == left[k]
  {
  }

  /** The nested assessment normalises to its own score and breakdown, whatever the top level says. */
  lemma ScoreJsonNormalises(s: SustainabilityScore, other: Js.Value, parseNumeric: string -> Js.Num)
    ensures ScanRoutes.NormaliseScore(ScoreJson(s), other, parseNumeric)
         == ScanRoutes.Normalised(Some(Js.Finite(s.score)), Some(BreakdownJson(s.breakdown)))
  {
    assert Js.Prop(ScoreJson(s), "score") == Js.Number(Js.Finite(s.score));
    assert Js.Prop(ScoreJson(s), "breakdown") == BreakdownJson(s.breakdown);
  }

  /** A body whose `score` is a serialised assessment, with the other required fields supplied, is accepted with that assessment's score and breakdown. */
  lemma ObjectScoreAccepted(body: map<string, Js.Value>, s: SustainabilityScore, parseNumeric: string -> Js.Num)
    requires var p := ScanRoutes.PayloadOf(body);
      && p.score == ScoreJson(s) && p.detected_labels.Arr?
      && Js.Truthy(p.packaging_type) && Js.Truthy(p.material_hints) && Js.Truthy(p.action)
    ensures var r := ScanRoutes.Validate(body, parseNumeric);
      && r.Success?
      && r.value.score == Js.Finite(s.score)
      && r.value.breakdown == BreakdownJson(s.breakdown)
  {
    var p := ScanRoutes.PayloadOf(body);
    ScoreJsonNormalises(s, p.breakdown, parseNumeric);
    var n := ScanRoutes.Normalise(p, parseNumeric);
    assert n == ScanRoutes.Normalised(Some(Js.Finite(s.score)), Some(BreakdownJson(s.breakdown)));
    forall g ensures ScanRoutes.Present(g, n, p) {
    }
    ScanRoutes.AllPresentAccepted(body, parseNumeric);
  }

  /** The same body with an empty packaging type is refused, naming that field alone. */
  lemma ObjectScoreWithoutPackaging(body: map<string, Js.Value>, s: SustainabilityScore, parseNumeric: string -> Js.Num)
    requires var p := ScanRoutes.PayloadOf(body);
      && p.score == ScoreJson(s) && p.detected_labels.Arr?
      && !Js.Truthy(p.packaging_type) && Js.Truthy(p.material_hints) && Js.Truthy(p.action)
    ensures ScanRoutes.Validate(body, parseNumeric) == Failure(ScanRoutes.MissingPrefix + "packaging_type")
  {
    var p := ScanRoutes.PayloadOf(body);
    ScoreJsonNormalises(s, p.breakdown, parseNumeric);
    var n := ScanRoutes.Normalise(p, parseNumeric);
    forall g ensures ScanRoutes.Present(g, n, p) <==> g != ScanRoutes.PackagingField {
    }
    ScanRoutes.SingleMissingFieldNamed(body, parseNumeric, ScanRoutes.PackagingField);
  }

  /**
   The client's request lands in the server's object-score branch: the
   score and breakdown come from inside `score`. It passes validation
   whenever the two text fields are non-empty; a zero score is accepted.
   */
  lemma ClientBodyUsesObjectScore(c: ScanContext, s: SustainabilityScore, a: Action, parseNumeric: string -> Js.Num)
    requires c.packaging_type != "" && c.material_hints != ""
    ensures var r := ScanRoutes.Validate(CreateBody(c, s, a), parseNumeric);
      && r.Success?
      && r.value.score == Js.Finite(s.score)
      && r.value.breakdown == BreakdownJson(s.breakdown)
  {
    CreateBodyFields(c, s, a);
    ObjectScoreAccepted(CreateBody(c, s, a), s, parseNumeric);
  }

  /**
   An assessment without a packaging type is refused by the server, and
   the message names that field alone.
   */
  lemma ClientEmptyPackagingRejected(c: ScanContext, s: SustainabilityScore, a: Action, parseNumeric: string -> Js.Num)
    requires c.packaging_type == "" && c.material_hints != ""
    ensures ScanRoutes.Validate(CreateBody(c, s, a), parseNumeric)
         == Failure(ScanRoutes.MissingPrefix + "packaging_type")
  {
    CreateBodyFields(c, s, a);
    ObjectScoreWithoutPackaging(CreateBody(c, s, a), s, parseNumeric);
  }
}
