/**
 The scan ingestion routes of the backend: the optional-auth gate, the
 create handler (normalise the score payload, report every missing field,
 resolve the owner, write to the in-memory list or the durable store) and
 the listing handler (filter by owner and time range, project to the wire
 shape).

 The database connection state, token verification, id minting, the clock,
 date parsing and numeric parsing of strings are inputs. Both backends are
 sequences of stored records: the in-memory list gains new records at the
 front, the durable store at the back.
 */
module ScanRoutes {
  import opened Wrappers
  import opened Js
  import Seqs
  import Strings

  /** Owner recorded when neither the token nor the payload names a user. */
  const GuestUserId: string := "000000000000000000000000"

  /** Storage tag the create reply carries when the record went to memory. */
  const MemoryStorage: string := "memory"

  const MissingPrefix: string := "Missing required fields: "

  /** Message of a 500 reply whose error carries no message. */
  const InternalError: string := "Internal server error"

  /** Largest number of records a durable listing returns. */
  const DurableListLimit: nat := 100

  /** The fields a create must carry. */
  datatype Field = ScoreField | BreakdownField | LabelsField | PackagingField | MaterialsField | ActionField

  /** The required fields, in the order their absence is reported. */
  const RequiredFields: seq<Field> :=
    [ScoreField, BreakdownField, LabelsField, PackagingField, MaterialsField, ActionField]

  /** The name a field has in the request body and in the 400 message. */
  function FieldName(f: Field): string {
    match f
    case ScoreField => "score"
    case BreakdownField => "breakdown"
    case LabelsField => "detected_labels"
    case PackagingField => "packaging_type"
    case MaterialsField => "material_hints"
    case ActionField => "action"
  }

  // ---------------------------------------------------------------------
  // Optional auth
  // ---------------------------------------------------------------------

  /** What verifying a token yields: a failure, or the decoded `userId` claim (possibly absent). */
  datatype Verdict = Invalid | Verified(userId: Option<string>)

  /** The `Authorization` header with the first `"Bearer "` removed. */
  function BearerToken(authorization: Option<string>): Option<string> {
    match authorization
    case None => None
    case Some(h) => Some(Strings.ReplaceFirst(h, "Bearer ", ""))
  }

  /**
   The identity the gate attaches to the request. The gate never rejects:
   its only outcome is an identity or none. An identity is attached only
   when a non-empty token verified and carried a `userId` claim.
   */
  function OptionalAuth(authorization: Option<string>, verify: string -> Verdict): (userId: Option<string>)
    ensures userId.Some? ==>
      && authorization.Some?
      && BearerToken(authorization).value != ""
      && verify(BearerToken(authorization).value) == Verified(userId)
    ensures authorization.None? ==> userId.None?
  {
    match BearerToken(authorization)
    case None => None
    case Some(token) =>
      if token == "" then None
      else
        match verify(token)
        case Invalid => None
        case Verified(u) => u
  }

  /** A standard `Bearer <token>` header attaches exactly what verifying `<token>` yields. */
  lemma BearerHeaderVerified(token: string, verify: string -> Verdict)
    ensures OptionalAuth(Some("Bearer " + token), verify)
         == (if token != "" && verify(token).Verified? then verify(token).userId else None)
  {
    var h := "Bearer " + token;
    assert Strings.OccursAt(h, "Bearer ", 0) by {
      assert h[0..|"Bearer "|] == "Bearer ";
    }
    assert h[|"Bearer "|..] == token;
    assert Strings.ReplaceFirst(h, "Bearer ", "") == token;
    assert BearerToken(Some(h)) == Some(token);
  }

  /** A header without `"Bearer "` anywhere is verified as it stands. */
  lemma {:induction false} HeaderWithoutBearerUsedVerbatim(header: string, verify: string -> Verdict)
    requires forall i: nat :: !Strings.OccursAt(header, "Bearer ", i)
    ensures OptionalAuth(Some(header), verify)
         == (if header != "" && verify(header).Verified? then verify(header).userId else None)
  {
    Strings.ReplaceFirstAbsent(header, "Bearer ", "");
  }

  /** `if (authUserId)`: the request counts as authenticated only with a non-empty id. */
  predicate Authenticated(authId: Option<string>) {
    authId.Some? && authId.value != ""
  }

  // ---------------------------------------------------------------------
  // Create: score normalisation and validation
  // ---------------------------------------------------------------------

  /** The canonical score and breakdown, each possibly absent. */
  datatype Normalised = Normalised(score: Option<Num>, breakdown: Option<Value>)

  /**
   Accepts either a numeric `score` with a top-level `breakdown`, or an
   object `score` carrying its own `score` and `breakdown`; anything else
   leaves both absent.
   */
  function NormaliseScore(score: Value, breakdown: Value, parseNumeric: string -> Num): (n: Normalised)
    ensures n.breakdown.Some? ==> IsRecord(n.breakdown.value)
    ensures n.score.Some? <==> score.Number? || IsRecord(score)
    ensures n.score.None? ==> n.breakdown.None?
    ensures score.Number? ==> n.score == Some(score.n)
    ensures score.Number? ==> (n.breakdown.Some? <==> IsRecord(breakdown))
    ensures score.Number? && n.breakdown.Some? ==> n.breakdown.value == breakdown
    ensures IsRecord(score) ==> n.score == Some(ToNumber(Prop(score, "score"), parseNumeric))
    ensures IsRecord(score) ==> (n.breakdown.Some? <==> IsRecord(Prop(score, "breakdown")))
    ensures IsRecord(score) && n.breakdown.Some? ==> n.breakdown.value == Prop(score, "breakdown")
  {
    if score.Number? then
      Normalised(Some(score.n), if IsRecord(breakdown) then Some(breakdown) else None)
    else if IsRecord(score) then
      var inner := Prop(score, "breakdown");
      Normalised(Some(ToNumber(Prop(score, "score"), parseNumeric)),
                 if IsRecord(inner) then Some(inner) else None)
    else
      Normalised(None, None)
  }

  /** With an object score, the top-level `breakdown` is ignored. */
  lemma ObjectScoreIgnoresTopLevelBreakdown(score: Value, b1: Value, b2: Value, parseNumeric: string -> Num)
    requires IsRecord(score)
    ensures NormaliseScore(score, b1, parseNumeric) == NormaliseScore(score, b2, parseNumeric)
  {
  }

  /**
   The two payload conventions agree: a flat numeric score with a breakdown
   normalises exactly like the same pair nested under `score`.
   */
  lemma PayloadShapesAgree(x: Num, b: Value, other: Value, parseNumeric: string -> Num)
    ensures NormaliseScore(Number(x), b, parseNumeric)
         == NormaliseScore(Obj(map["score" := Number(x), "breakdown" := b]), other, parseNumeric)
  {
    var nested := Obj(map["score" := Number(x), "breakdown" := b]);
    assert Prop(nested, "score") == Number(x);
    assert Prop(nested, "breakdown") == b;
  }

  /** The destructured request body. */
  datatype Payload = Payload(
    score: Value,
    breakdown: Value,
    detected_labels: Value,
    packaging_type: Value,
    material_hints: Value,
    ocr_text: Value,
    brand_text: Value,
    image_thumb: Value,
    action: Value,
    userId: Value)

  function PayloadOf(body: map<string, Value>): Payload {
    Payload(
      BodyField(body, "score"), BodyField(body, "breakdown"),
      BodyField(body, "detected_labels"), BodyField(body, "packaging_type"),
      BodyField(body, "material_hints"), BodyField(body, "ocr_text"),
      BodyField(body, "brand_text"), BodyField(body, "image_thumb"),
      BodyField(body, "action"), BodyField(body, "userId"))
  }

  /**
   Whether a required field counts as supplied: the score must be present
   and not NaN (there is no range check), the breakdown must be a record
   (its components are not inspected), and the other fields need only be
   truthy, so an empty array passes and an empty string does not.
   */
  predicate Present(f: Field, n: Normalised, p: Payload) {
    match f
    case ScoreField => n.score.Some? && n.score.value != NaN
    case BreakdownField => n.breakdown.Some?
    case LabelsField => Truthy(p.detected_labels)
    case PackagingField => Truthy(p.packaging_type)
    case MaterialsField => Truthy(p.material_hints)
    case ActionField => Truthy(p.action)
  }

  /** Position of a field in the reporting order. */
  function Rank(f: Field): int {
    match f
    case ScoreField => 0
    case BreakdownField => 1
    case LabelsField => 2
    case PackagingField => 3
    case MaterialsField => 4
    case ActionField => 5
  }

  /**
   Every absent required field: the six checks run one after the other in
   reporting order, each appending the name of an absent field.
   */
  function MissingFields(n: Normalised, p: Payload): (missing: seq<Field>)
    ensures forall f :: f in missing <==> !Present(f, n, p)
  {
    assert forall f :: f in RequiredFields by {
      forall f ensures f in RequiredFields {
        assert RequiredFields[Rank(f)] == f;
      }
    }
    Seqs.Filter(RequiredFields, (f: Field) => !Present(f, n, p))
  }

  /** The missing fields are reported in strictly increasing reporting order, so each at most once. */
  lemma MissingFieldsOrdered(n: Normalised, p: Payload)
    ensures Seqs.StrictlyIncreasing(MissingFields(n, p), Rank)
  {
    forall i, j | 0 <= i < j < |RequiredFields|
      ensures Rank(RequiredFields[i]) < Rank(RequiredFields[j])
    {
      assert Rank(RequiredFields[i]) == i && Rank(RequiredFields[j]) == j;
    }
    Seqs.FilterKeepsIncreasing(RequiredFields, (f: Field) => !Present(f, n, p), Rank);
  }

  /** The 400 message for a list of absent fields. */
  function MissingMessage(missing: seq<Field>): string {
    MissingPrefix + Strings.Join(Seqs.Map(missing, FieldName), ", ")
  }

  /** A payload whose required fields are all present, with its canonical score. */
  datatype Accepted = Accepted(score: Num, breakdown: Value, payload: Payload)

  function Normalise(p: Payload, parseNumeric: string -> Num): Normalised {
    NormaliseScore(p.score, p.breakdown, parseNumeric)
  }

  /**
   Rejects a body with any required field absent, naming every absent
   field; otherwise yields the canonical score and breakdown.
   */
  function Validate(body: map<string, Value>, parseNumeric: string -> Num): (r: Result<Accepted, string>)
    ensures var p := PayloadOf(body); var n := Normalise(p, parseNumeric);
      && (r.Failure? <==> exists f :: !Present(f, n, p))
      && (r.Failure? ==> r.error == MissingMessage(MissingFields(n, p)))
      && (r.Success? ==> r.value.payload == p && n == Normalised(Some(r.value.score), Some(r.value.breakdown)))
    ensures r.Success? ==>
      && r.value.score != NaN
      && IsRecord(r.value.breakdown)
      && Truthy(r.value.payload.detected_labels)
      && Truthy(r.value.payload.packaging_type)
      && Truthy(r.value.payload.material_hints)
      && Truthy(r.value.payload.action)
  {
    var p := PayloadOf(body);
    var n := Normalise(p, parseNumeric);
    var missing := MissingFields(n, p);
    if |missing| > 0 then
      assert missing[0] in missing;
      Failure(MissingMessage(missing))
    else
      assert Present(ScoreField, n, p) && Present(BreakdownField, n, p);
      assert Present(LabelsField, n, p) && Present(PackagingField, n, p);
      assert Present(MaterialsField, n, p) && Present(ActionField, n, p);
      Success(Accepted(n.score.value, n.breakdown.value, p))
  }

  /** With every required field present, the body is accepted with its normalised score and breakdown. */
  lemma AllPresentAccepted(body: map<string, Value>, parseNumeric: string -> Num)
    requires var p := PayloadOf(body); forall g :: Present(g, Normalise(p, parseNumeric), p)
    ensures var p := PayloadOf(body); var n := Normalise(p, parseNumeric);
      && n.score.Some? && n.breakdown.Some?
      && Validate(body, parseNumeric) == Success(Accepted(n.score.value, n.breakdown.value, p))
  {
    var p := PayloadOf(body);
    var n := Normalise(p, parseNumeric);
    assert Present(ScoreField, n, p) && Present(BreakdownField, n, p);
  }

  /**
   There is no range check: any numeric score other than NaN (150, -5, an
   infinity) is accepted as it stands when the other fields are present.
   */
  lemma AnyNumericScoreAccepted(body: map<string, Value>, parseNumeric: string -> Num, x: Num)
    requires x != NaN
    requires var p := PayloadOf(body);
      && p.score == Number(x) && IsRecord(p.breakdown)
      && Truthy(p.detected_labels) && Truthy(p.packaging_type) && Truthy(p.material_hints) && Truthy(p.action)
    ensures var r := Validate(body, parseNumeric);
      r.Success? && r.value.score == x && r.value.breakdown == PayloadOf(body).breakdown
  {
    var p := PayloadOf(body);
    var n := Normalise(p, parseNumeric);
    forall g ensures Present(g, n, p) {
    }
    AllPresentAccepted(body, parseNumeric);
  }

  /** With exactly one required field absent, the message names exactly that field. */
  lemma SingleMissingFieldNamed(body: map<string, Value>, parseNumeric: string -> Num, f: Field)
    requires var p := PayloadOf(body); var n := Normalise(p, parseNumeric);
      forall g :: Present(g, n, p) <==> g != f
    ensures Validate(body, parseNumeric) == Failure(MissingPrefix + FieldName(f))
  {
    var p := PayloadOf(body);
    var n := Normalise(p, parseNumeric);
    MissingFieldsOrdered(n, p);
    OnlyMissingField(MissingFields(n, p), f);
    MissingMessageOne(f);
    assert !Present(f, n, p);
  }

  /** An ordered list of fields holding `f` and nothing else is `[f]`. */
  lemma OnlyMissingField(missing: seq<Field>, f: Field)
    requires Seqs.StrictlyIncreasing(missing, Rank)
    requires forall g :: g in missing <==> g == f
    ensures missing == [f]
  {
    assert f in missing;
    assert forall i :: 0 <= i < |missing| ==> missing[i] == f by {
      forall i | 0 <= i < |missing| ensures missing[i] == f {
        assert missing[i] in missing;
      }
    }
    Seqs.IncreasingSpread(missing, Rank);
  }

  /** The message for one absent field names just that field. */
  lemma MissingMessageOne(f: Field)
    ensures MissingMessage([f]) == MissingPrefix + FieldName(f)
  {
    assert Seqs.Map([f], FieldName) == [FieldName(f)];
  }

  /** With every required field absent, all six are named, in the reporting order. */
  lemma AllMissingFieldsNamed(body: map<string, Value>, parseNumeric: string -> Num)
    requires var p := PayloadOf(body); forall f :: !Present(f, Normalise(p, parseNumeric), p)
    ensures Validate(body, parseNumeric) == Failure(MissingMessage(RequiredFields))
  {
    var p := PayloadOf(body);
    var n := Normalise(p, parseNumeric);
    NothingPresentAllMissing(p, n);
    assert !Present(ScoreField, n, p);
  }

  /** When no required field is present, the missing list is the whole reporting order. */
  lemma NothingPresentAllMissing(p: Payload, n: Normalised)
    requires forall f :: !Present(f, n, p)
    ensures MissingFields(n, p) == RequiredFields
  {
    Seqs.FilterAll(RequiredFields, (f: Field) => !Present(f, n, p));
  }

  /** An empty body lacks every required field. */
  lemma EmptyBodyLacksEverything(parseNumeric: string -> Num, f: Field)
    ensures !Present(f, Normalise(PayloadOf(map[]), parseNumeric), PayloadOf(map[]))
  {
  }

  // ---------------------------------------------------------------------
  // Create: owner, backends, reply
  // ---------------------------------------------------------------------

  /**
   The owner of a new record: the authenticated id, else a truthy payload
   `userId`, else the guest sentinel. The owner is never blank.
   */
  function ResolveOwner(authId: Option<string>, payloadUserId: Value): (owner: Value)
    ensures Truthy(owner)
    ensures Authenticated(authId) ==> owner == Str(authId.value)
    ensures !Authenticated(authId) && Truthy(payloadUserId) ==> owner == payloadUserId
    ensures !Authenticated(authId) && !Truthy(payloadUserId) ==> owner == Str(GuestUserId)
  {
    if Authenticated(authId) then Str(authId.value)
    else if Truthy(payloadUserId) then payloadUserId
    else Str(GuestUserId)
  }

  /** A record as either backend stores it. */
  datatype ServerScan = ServerScan(
    id: string,
    userId: Value,
    timestamp: int,
    score: Num,
    breakdown: Value,
    detected_labels: Value,
    packaging_type: Value,
    material_hints: Value,
    ocr_text: Value,
    brand_text: Value,
    image_thumb: Value,
    action: Value)

  /** The in-process fallback list and the durable store. */
  datatype Backends = Backends(memory: seq<ServerScan>, durable: seq<ServerScan>)

  datatype Response =
    | Created(id: string, storage: Option<string>)
    | BadRequest(message: string)
    | ServerError(message: string)

  /**
   What the world supplies to one create: whether the database is
   connected, the id the new record gets, the clock, and the error (with
   its message) the durable write raises, if any.
   */
  datatype CreateEnv = CreateEnv(dbConnected: bool, newId: string, nowMs: int, durableFault: Option<string>)

  datatype CreateReply = CreateReply(response: Response, backends: Backends)

  /** The stored form of an accepted payload: the canonical score, and every other field as posted. */
  function Record(a: Accepted, owner: Value, id: string, nowMs: int): (d: ServerScan)
    ensures d.id == id && d.userId == owner && d.timestamp == nowMs
    ensures d.score == a.score && d.breakdown == a.breakdown
    ensures && d.detected_labels == a.payload.detected_labels && d.packaging_type == a.payload.packaging_type
            && d.material_hints == a.payload.material_hints && d.ocr_text == a.payload.ocr_text
            && d.brand_text == a.payload.brand_text && d.image_thumb == a.payload.image_thumb
            && d.action == a.payload.action
  {
    var p := a.payload;
    ServerScan(id, owner, nowMs, a.score, a.breakdown, p.detected_labels, p.packaging_type,
               p.material_hints, p.ocr_text, p.brand_text, p.image_thumb, p.action)
  }

  /** The message of a 500 reply: the error's message, or a generic one. */
  function FaultMessage(message: string): string {
    if message != "" then message else InternalError
  }

  /**
   POST `/`: a rejected body writes nothing and answers 400; otherwise the
   record goes to the front of the in-memory list when the database is not
   connected (reply tagged `memory`), else to the durable store (reply
   without a storage tag); a failing durable write answers 500 and stores
   nothing.
   */
  function Create(b: Backends, body: map<string, Value>, authId: Option<string>, env: CreateEnv,
                  parseNumeric: string -> Num): (r: CreateReply)
    ensures r.response.BadRequest? <==> Validate(body, parseNumeric).Failure?
    ensures r.response.BadRequest? ==> r.response.message == Validate(body, parseNumeric).error
    ensures !r.response.Created? ==> r.backends == b
    ensures r.response.ServerError? <==>
      Validate(body, parseNumeric).Success? && env.dbConnected && env.durableFault.Some?
    ensures r.response.ServerError? ==> r.response.message == FaultMessage(env.durableFault.value)
    ensures r.response.Created? && !env.dbConnected ==>
      && r.response == Created(env.newId, Some(MemoryStorage))
      && |r.backends.memory| == |b.memory| + 1
      && r.backends.memory[1..] == b.memory
      && r.backends.memory[0].id == env.newId
      && r.backends.durable == b.durable
    ensures r.response.Created? && env.dbConnected ==>
      && r.response == Created(env.newId, None)
      && |r.backends.durable| == |b.durable| + 1
      && r.backends.durable[..|b.durable|] == b.durable
      && r.backends.durable[|b.durable|].id == env.newId
      && r.backends.memory == b.memory
    ensures r.response.Created? ==>
      var stored := if env.dbConnected then r.backends.durable[|b.durable|] else r.backends.memory[0];
      && stored.userId == ResolveOwner(authId, PayloadOf(body).userId) && stored.timestamp == env.nowMs
      && stored == Record(Validate(body, parseNumeric).value, ResolveOwner(authId, PayloadOf(body).userId), env.newId, env.nowMs)
  {
    match Validate(body, parseNumeric)
    case Failure(message) => CreateReply(BadRequest(message), b)
    case Success(a) =>
      var owner := ResolveOwner(authId, a.payload.userId);
      var item := Record(a, owner, env.newId, env.nowMs);
      if !env.dbConnected then
        CreateReply(Created(env.newId, Some(MemoryStorage)), b.(memory := [item] + b.memory))
      else if env.durableFault.Some? then
        CreateReply(ServerError(FaultMessage(env.durableFault.value)), b)
      else
        CreateReply(Created(env.newId, None), b.(durable := b.durable + [item]))
  }

  // ---------------------------------------------------------------------
  // Listing
  // ---------------------------------------------------------------------

  /** A date bound from the query string: ignored when absent or empty. */
  function Bound(raw: Option<string>, parseDate: string -> int): Option<int> {
    if raw.Some? && raw.value != "" then Some(parseDate(raw.value)) else None
  }

  /** The in-memory filter: owned by the caller when authenticated, and inside both supplied bounds. */
  predicate MemoryMatches(d: ServerScan, authId: Option<string>, start: Option<int>, end: Option<int>) {
    && !(Authenticated(authId) && d.userId != Str(authId.value))
    && (start.Some? ==> d.timestamp >= start.value)
    && (end.Some? ==> d.timestamp <= end.value)
  }

  function MemoryMatching(memory: seq<ServerScan>, authId: Option<string>, start: Option<int>, end: Option<int>): seq<ServerScan> {
    Seqs.Filter(memory, (d: ServerScan) => MemoryMatches(d, authId, start, end))
  }

  /** The timestamp condition of a durable query: `$gte` and/or `$lte`. */
  datatype Range = Range(gte: Option<int>, lte: Option<int>)

  /** A durable query: an optional owner equality and an optional timestamp range. */
  datatype Query = Query(userId: Option<string>, timestamp: Option<Range>)

  /** The durable query built from the caller's identity and the supplied bounds. */
  function DurableQuery(authId: Option<string>, start: Option<int>, end: Option<int>): (q: Query)
    ensures q.timestamp.Some? ==> q.timestamp.value.gte.Some? || q.timestamp.value.lte.Some?
    ensures q.userId.Some? <==> Authenticated(authId)
  {
    Query(if Authenticated(authId) then authId else None,
          if start.Some? || end.Some? then Some(Range(start, end)) else None)
  }

  /** Whether a stored record satisfies a durable query. */
  predicate QueryMatches(q: Query, d: ServerScan) {
    && (q.userId.Some? ==> d.userId == Str(q.userId.value))
    && (q.timestamp.Some? ==>
          && (q.timestamp.value.gte.Some? ==> d.timestamp >= q.timestamp.value.gte.value)
          && (q.timestamp.value.lte.Some? ==> d.timestamp <= q.timestamp.value.lte.value))
  }

  /** The durable query selects exactly the records the in-memory filter keeps. */
  lemma QueryAgreesWithMemoryFilter(authId: Option<string>, start: Option<int>, end: Option<int>, d: ServerScan)
    ensures QueryMatches(DurableQuery(authId, start, end), d) <==> MemoryMatches(d, authId, start, end)
  {
  }

  function QueryMatching(durable: seq<ServerScan>, q: Query): seq<ServerScan> {
    Seqs.Filter(durable, (d: ServerScan) => QueryMatches(q, d))
  }

  /** The score part of a listed record. */
  datatype WireScore = WireScore(score: Num, breakdown: Value, top_factors: seq<Value>, suggestion: string, disposal: string)

  /** The context part of a listed record. */
  datatype WireContext = WireContext(
    detected_labels: Value,
    packaging_type: Value,
    material_hints: Value,
    ocr_text: Value,
    brand_text: Value,
    image_thumb: Value,
    image: Value,
    user_note: string)

  /** One element of a listing reply. */
  datatype Listed = Listed(id: string, timestamp: int, score: WireScore, context: WireContext, action: Value)

  /**
   The wire shape both listing paths use: the stored thumbnail doubles as
   the image, the unpersisted fields come back empty, the owner is dropped.
   */
  function Project(d: ServerScan): (l: Listed)
    ensures l.context.image == l.context.image_thumb
    ensures l.score.top_factors == [] && l.score.suggestion == "" && l.score.disposal == ""
    ensures l.context.user_note == ""
    ensures l.id == d.id && l.timestamp == d.timestamp && l.action == d.action
    ensures l.score.score == d.score && l.score.breakdown == d.breakdown
    ensures && l.context.detected_labels == d.detected_labels && l.context.packaging_type == d.packaging_type
            && l.context.material_hints == d.material_hints && l.context.ocr_text == d.ocr_text
            && l.context.brand_text == d.brand_text && l.context.image_thumb == d.image_thumb
  {
    Listed(d.id, d.timestamp,
           WireScore(d.score, d.breakdown, [], "", ""),
           WireContext(d.detected_labels, d.packaging_type, d.material_hints, d.ocr_text,
                       d.brand_text, d.image_thumb, d.image_thumb, ""),
           d.action)
  }

  /** The projection loses only the owner: every other stored field is recoverable. */
  lemma ProjectKeepsAllButOwner(d1: ServerScan, d2: ServerScan)
    requires Project(d1) == Project(d2)
    ensures d1 == d2.(userId := d1.userId)
  {
  }

  /**
   Listing from memory: every record the caller may see inside the bounds,
   in stored order (newest create first), with no size cap.
   */
  function ListMemory(memory: seq<ServerScan>, authId: Option<string>,
                      startRaw: Option<string>, endRaw: Option<string>, parseDate: string -> int): (r: seq<Listed>)
    ensures var start := Bound(startRaw, parseDate); var end := Bound(endRaw, parseDate);
      && (forall i :: 0 <= i < |r| ==> exists d :: d in memory && MemoryMatches(d, authId, start, end) && r[i] == Project(d))
      && (forall d :: d in memory && MemoryMatches(d, authId, start, end) ==> Project(d) in r)
      && r == Seqs.Map(MemoryMatching(memory, authId, start, end), Project)
  {
    var start := Bound(startRaw, parseDate);
    var end := Bound(endRaw, parseDate);
    var kept := MemoryMatching(memory, authId, start, end);
    var r := Seqs.Map(kept, Project);
    assert forall d :: d in kept ==> Project(d) in r by {
      forall d | d in kept ensures Project(d) in r {
        var i :| 0 <= i < |kept| && kept[i] == d;
        assert r[i] == Project(d);
      }
    }
    assert forall i :: 0 <= i < |r| ==> kept[i] in kept;
    r
  }

  /** The sort key of the durable listing: `timestamp`, newest first. */
  function TimestampKey(d: ServerScan): int {
    d.timestamp
  }

  /**
   `sort({ timestamp: -1 }).limit(100)`: the matching records newest first,
   at most 100 of them, all of them when they fit.
   */
  function DurablePage(matching: seq<ServerScan>): (page: seq<ServerScan>)
    ensures |page| == (if |matching| <= DurableListLimit then |matching| else DurableListLimit)
    ensures forall i :: 0 <= i < |page| ==> page[i] in matching
    ensures |matching| <= DurableListLimit ==> forall d :: d in matching ==> d in page
    ensures forall i, j :: 0 <= i < j < |page| ==> page[i].timestamp >= page[j].timestamp
  {
    var sorted := Seqs.SortDesc(matching, TimestampKey);
    var page := Seqs.Take(sorted, DurableListLimit);
    PageFacts(matching, sorted, page);
    assert forall i, j :: 0 <= i < j < |page| ==> TimestampKey(page[i]) >= TimestampKey(page[j]);
    page
  }

  /**
   The page is the newest part of the matches: no record is on it more
   often than it matches, and every match cut off by the limit is no newer
   than any record on the page.
   */
  lemma DurablePageNewest(matching: seq<ServerScan>)
    ensures var page := DurablePage(matching);
      && multiset(page) <= multiset(matching)
      && forall d :: d in multiset(matching) - multiset(page) ==>
           forall i :: 0 <= i < |page| ==> d.timestamp <= page[i].timestamp
  {
    var sorted := Seqs.SortDesc(matching, TimestampKey);
    PageIsNewest(matching, sorted, Seqs.Take(sorted, DurableListLimit));
  }

  /**
   Listing from the durable store: the records the query selects, newest
   first, at most 100 of them; when no more than 100 match, all are listed.
   */
  function ListDurable(durable: seq<ServerScan>, authId: Option<string>,
                       startRaw: Option<string>, endRaw: Option<string>, parseDate: string -> int): (r: seq<Listed>)
    ensures var q := DurableQuery(authId, Bound(startRaw, parseDate), Bound(endRaw, parseDate));
      var matching := QueryMatching(durable, q);
      && |r| == (if |matching| <= DurableListLimit then |matching| else DurableListLimit)
      && (forall i :: 0 <= i < |r| ==> exists d :: d in durable && QueryMatches(q, d) && r[i] == Project(d))
      && (|matching| <= DurableListLimit ==> forall d :: d in matching ==> Project(d) in r)
    ensures forall i, j :: 0 <= i < j < |r| ==> r[i].timestamp >= r[j].timestamp
  {
    var q := DurableQuery(authId, Bound(startRaw, parseDate), Bound(endRaw, parseDate));
    var page := DurablePage(QueryMatching(durable, q));
    ProjectedPage(durable, q, page);
    Seqs.Map(page, Project)
  }

  /**
   The durable listing is the newest part of the matches: no match is
   listed more often than it is stored, and a match left out of the listing
   is no newer than anything listed.
   */
  lemma ListDurableNewest(durable: seq<ServerScan>, authId: Option<string>,
                          startRaw: Option<string>, endRaw: Option<string>, parseDate: string -> int)
    ensures var q := DurableQuery(authId, Bound(startRaw, parseDate), Bound(endRaw, parseDate));
      var matching := QueryMatching(durable, q);
      var r := ListDurable(durable, authId, startRaw, endRaw, parseDate);
      && multiset(r) <= multiset(Seqs.Map(matching, Project))
      && (forall d :: d in matching && Project(d) !in r ==> forall i :: 0 <= i < |r| ==> d.timestamp <= r[i].timestamp)
  {
    var q := DurableQuery(authId, Bound(startRaw, parseDate), Bound(endRaw, parseDate));
    var matching := QueryMatching(durable, q);
    var page := DurablePage(matching);
    DurablePageNewest(matching);
    assert ListDurable(durable, authId, startRaw, endRaw, parseDate) == Seqs.Map(page, Project);
    Seqs.MapSubMultiset(page, matching, Project);
    OmittedAreOlder(matching, page);
  }

  /** A match whose projection is not listed was cut by the limit, so it is no newer than any listed record. */
  lemma OmittedAreOlder(matching: seq<ServerScan>, page: seq<ServerScan>)
    requires forall d :: d in multiset(matching) - multiset(page) ==>
      forall i :: 0 <= i < |page| ==> d.timestamp <= page[i].timestamp
    ensures var r := Seqs.Map(page, Project);
      forall d :: d in matching && Project(d) !in r ==> forall i :: 0 <= i < |r| ==> d.timestamp <= r[i].timestamp
  {
    var r := Seqs.Map(page, Project);
    forall d | d in matching && Project(d) !in r
      ensures forall i :: 0 <= i < |r| ==> d.timestamp <= r[i].timestamp
    {
      forall k | 0 <= k < |page| ensures page[k] != d {
        assert r[k] == Project(page[k]);
      }
      assert multiset(page)[d] == 0;
      assert d in multiset(matching);
      assert d in multiset(matching) - multiset(page);
    }
  }

  /** Projecting a page of the query's records keeps where each came from, the completeness and the order. */
  lemma ProjectedPage(durable: seq<ServerScan>, q: Query, page: seq<ServerScan>)
    requires forall i :: 0 <= i < |page| ==> page[i] in QueryMatching(durable, q)
    requires forall i, j :: 0 <= i < j < |page| ==> page[i].timestamp >= page[j].timestamp
    ensures var r := Seqs.Map(page, Project);
      && (forall i :: 0 <= i < |r| ==> exists d :: d in durable && QueryMatches(q, d) && r[i] == Project(d))
      && ((forall d :: d in QueryMatching(durable, q) ==> d in page) ==>
            forall d :: d in QueryMatching(durable, q) ==> Project(d) in r)
      && (forall i, j :: 0 <= i < j < |r| ==> r[i].timestamp >= r[j].timestamp)
  {
    var r := Seqs.Map(page, Project);
    forall i | 0 <= i < |r| ensures exists d :: d in durable && QueryMatches(q, d) && r[i] == Project(d) {
      assert page[i] in QueryMatching(durable, q);
    }
    if forall d :: d in QueryMatching(durable, q) ==> d in page {
      forall d | d in QueryMatching(durable, q) ensures Project(d) in r {
        var i :| 0 <= i < |page| && page[i] == d;
        assert r[i] == Project(d);
      }
    }
  }

  /** A page cut from a permutation of `matching`: its elements come from `matching`, and it is all of them when they fit. */
  lemma PageFacts(matching: seq<ServerScan>, sorted: seq<ServerScan>, page: seq<ServerScan>)
    requires multiset(sorted) == multiset(matching)
    requires page == Seqs.Take(sorted, DurableListLimit)
    ensures |sorted| == |matching|
    ensures forall i :: 0 <= i < |page| ==> page[i] in matching
    ensures |matching| <= DurableListLimit ==> forall d :: d in matching ==> d in page
  {
    assert |multiset(sorted)| == |multiset(matching)|;
    forall i | 0 <= i < |page| ensures page[i] in matching {
      assert page[i] == sorted[i];
      assert sorted[i] in multiset(sorted);
    }
    if |matching| <= DurableListLimit {
      assert page == sorted;
      forall d | d in matching ensures d in page {
        assert d in multiset(matching);
      }
    }
  }

  /**
   When the limit cuts, the page is the newest part of the sorted matches:
   what was cut off is no newer than anything kept.
   */
  lemma PageIsNewest(matching: seq<ServerScan>, sorted: seq<ServerScan>, page: seq<ServerScan>)
    requires multiset(sorted) == multiset(matching)
    requires Seqs.SortedDesc(sorted, TimestampKey)
    requires page == Seqs.Take(sorted, DurableListLimit)
    ensures multiset(page) <= multiset(matching)
    ensures forall d :: d in multiset(matching) - multiset(page) ==>
      forall i :: 0 <= i < |page| ==> d.timestamp <= page[i].timestamp
  {
    if |sorted| > DurableListLimit {
      var rest := sorted[DurableListLimit..];
      assert sorted == page + rest;
      assert multiset(sorted) == multiset(page) + multiset(rest);
      forall d | d in multiset(matching) - multiset(page)
        ensures forall i :: 0 <= i < |page| ==> d.timestamp <= page[i].timestamp
      {
        assert d in multiset(rest);
        var j :| 0 <= j < |rest| && rest[j] == d;
        forall i | 0 <= i < |page| ensures d.timestamp <= page[i].timestamp {
          assert page[i] == sorted[i] && rest[j] == sorted[DurableListLimit + j];
          assert TimestampKey(sorted[i]) >= TimestampKey(sorted[DurableListLimit + j]);
        }
      }
    } else {
      assert page == sorted;
    }
  }

  /** The listing reply, or a 500 when the durable query fails. */
  datatype ListReply = Listing(items: seq<Listed>) | ListError(message: string)

  /**
   GET `/`: served from memory while the database is not connected,
   otherwise from the durable store, whose query may fail with an error.
   */
  function List(b: Backends, dbConnected: bool, findFault: Option<string>, authId: Option<string>,
                startRaw: Option<string>, endRaw: Option<string>, parseDate: string -> int): (r: ListReply)
    ensures r.ListError? <==> dbConnected && findFault.Some?
    ensures r.ListError? ==> r.message == FaultMessage(findFault.value)
    ensures !dbConnected ==> r == Listing(ListMemory(b.memory, authId, startRaw, endRaw, parseDate))
    ensures r.Listing? && dbConnected ==> r.items == ListDurable(b.durable, authId, startRaw, endRaw, parseDate)
  {
    if !dbConnected then Listing(ListMemory(b.memory, authId, startRaw, endRaw, parseDate))
    else if findFault.Some? then ListError(FaultMessage(findFault.value))
    else Listing(ListDurable(b.durable, authId, startRaw, endRaw, parseDate))
  }

  // ---------------------------------------------------------------------
  // Create and list together
  // ---------------------------------------------------------------------

  /**
   Create then list in memory mode: the caller who created the record sees
   it first in an unbounded listing, with every stored field as posted.
   */
  lemma CreateThenListMemory(b: Backends, body: map<string, Value>, authId: Option<string>, env: CreateEnv,
                             parseNumeric: string -> Num, parseDate: string -> int)
    requires Validate(body, parseNumeric).Success?
    requires !env.dbConnected
    ensures var r := Create(b, body, authId, env, parseNumeric);
      var listed := ListMemory(r.backends.memory, authId, None, None, parseDate);
      var p := PayloadOf(body);
      && |listed| >= 1
      && listed[0].id == env.newId
      && listed[0].timestamp == env.nowMs
      && Normalise(p, parseNumeric).score == Some(listed[0].score.score)
      && Normalise(p, parseNumeric).breakdown == Some(listed[0].score.breakdown)
      && listed[0].context.detected_labels == p.detected_labels
      && listed[0].context.packaging_type == p.packaging_type
      && listed[0].context.material_hints == p.material_hints
      && listed[0].context.ocr_text == p.ocr_text
      && listed[0].context.brand_text == p.brand_text
      && listed[0].context.image_thumb == p.image_thumb
      && listed[0].action == p.action
  {
    var r := Create(b, body, authId, env, parseNumeric);
    var item := r.backends.memory[0];
    assert MemoryMatches(item, authId, None, None);
    assert r.backends.memory == [item] + b.memory;
    var kept := MemoryMatching(r.backends.memory, authId, None, None);
    assert kept[0] == item;
  }

  /**
   Create then list in durable mode: when no more than 100 records match
   the creator's unbounded listing, the new record is among them, with
   every stored field as posted.
   */
  lemma CreateThenListDurable(b: Backends, body: map<string, Value>, authId: Option<string>, env: CreateEnv,
                              parseNumeric: string -> Num, parseDate: string -> int)
    requires Validate(body, parseNumeric).Success?
    requires env.dbConnected && env.durableFault.None?
    requires |QueryMatching(Create(b, body, authId, env, parseNumeric).backends.durable, DurableQuery(authId, None, None))|
             <= DurableListLimit
    ensures var r := Create(b, body, authId, env, parseNumeric);
      var listed := ListDurable(r.backends.durable, authId, None, None, parseDate);
      var p := PayloadOf(body);
      exists l :: l in listed
        && l.id == env.newId
        && l.timestamp == env.nowMs
        && Normalise(p, parseNumeric).score == Some(l.score.score)
        && Normalise(p, parseNumeric).breakdown == Some(l.score.breakdown)
        && l.context.detected_labels == p.detected_labels
        && l.context.packaging_type == p.packaging_type
        && l.context.material_hints == p.material_hints
        && l.context.ocr_text == p.ocr_text
        && l.context.brand_text == p.brand_text
        && l.context.image_thumb == p.image_thumb
        && l.action == p.action
  {
    var a := Validate(body, parseNumeric).value;
    var stored := Record(a, ResolveOwner(authId, PayloadOf(body).userId), env.newId, env.nowMs);
    var durable := b.durable + [stored];
    assert Create(b, body, authId, env, parseNumeric).backends.durable == durable;
    assert stored.userId == ResolveOwner(authId, PayloadOf(body).userId);
    MatchingStoredIsListed(b.durable, stored, authId, parseDate);
  }

  /** A record the unbounded query selects is listed whenever no more than 100 match. */
  lemma MatchingStoredIsListed(durable: seq<ServerScan>, stored: ServerScan, authId: Option<string>, parseDate: string -> int)
    requires Authenticated(authId) ==> stored.userId == Str(authId.value)
    requires |QueryMatching(durable + [stored], DurableQuery(authId, None, None))| <= DurableListLimit
    ensures Project(stored) in ListDurable(durable + [stored], authId, None, None, parseDate)
  {
    var q := DurableQuery(authId, None, None);
    assert QueryMatches(q, stored);
    assert stored in durable + [stored];
  }

  /**
   The two backends are not reconciled: a record written to memory while
   the database was down never appears in a durable listing.
   */
  lemma MemoryWriteInvisibleToDurable(b: Backends, body: map<string, Value>, authId: Option<string>, env: CreateEnv,
                                      parseNumeric: string -> Num, viewer: Option<string>,
                                      startRaw: Option<string>, endRaw: Option<string>, parseDate: string -> int)
    requires !env.dbConnected
    requires forall d :: d in b.durable ==> d.id != env.newId
    ensures var r := Create(b, body, authId, env, parseNumeric);
      forall l :: l in ListDurable(r.backends.durable, viewer, startRaw, endRaw, parseDate) ==> l.id != env.newId
  {
  }
}
