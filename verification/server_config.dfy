/**
 The server's start-up configuration read from the environment: the
 allowed CORS origins, the database URI and the listening port.
 */
module ServerConfig {
  import opened Wrappers
  import Strings

  /** The database the server connects to when `MONGODB_URI` is unset or empty. */
  const DefaultMongoUri: string := "mongodb://localhost:27017/ecospectre"

  /** The port the server listens on when `PORT` is unset or empty. */
  const DefaultPort: nat := 5000

  /** The non-empty entries of a list of trimmed segments. */
  function NonBlank(segments: seq<string>): (r: seq<string>)
    ensures forall i :: 0 <= i < |r| ==> r[i] != ""
    ensures forall x :: x in r <==> x in segments && x != ""
    ensures (forall i :: 0 <= i < |segments| ==> segments[i] == "") ==> r == []
    decreases |segments|
  {
    if |segments| == 0 then []
    else (if segments[0] != "" then [segments[0]] else []) + NonBlank(segments[1..])
  }

  /** Every piece of a list, trimmed. */
  function TrimAll(parts: seq<string>): (r: seq<string>)
    ensures |r| == |parts|
    ensures forall i :: 0 <= i < |parts| ==> r[i] == Strings.Trim(parts[i])
  {
    seq(|parts|, i requires 0 <= i < |parts| => Strings.Trim(parts[i]))
  }

  /** What a parsed origin looks like: non-empty, trimmed, without a comma. */
  predicate CleanOrigin(x: string) {
    x != "" && Strings.Trimmed(x) && ',' !in x
  }

  /** `s.split(',').map(s => s.trim()).filter(Boolean)`. */
  function Origins(s: string): (r: seq<string>)
    ensures forall x :: x in r ==> x in TrimAll(Strings.Split(s, ',')) && x != ""
  {
    NonBlank(TrimAll(Strings.Split(s, ',')))
  }

  /** Every parsed origin is clean: non-empty, trimmed, without a comma. */
  lemma OriginsAreClean(s: string)
    ensures forall i :: 0 <= i < |Origins(s)| ==> CleanOrigin(Origins(s)[i])
  {
    var parts := Strings.Split(s, ',');
    var trimmed := TrimAll(parts);
    forall j | 0 <= j < |trimmed| ensures ',' !in trimmed[j] {
      Strings.TrimKeepsAbsent(parts[j], ',');
    }
    var r := Origins(s);
    forall i | 0 <= i < |r| ensures CleanOrigin(r[i]) {
      assert r[i] in r;
      var j :| 0 <= j < |trimmed| && trimmed[j] == r[i];
    }
  }

  /**
   The CORS configuration: `None` is the permissive default (no origin
   option), used when the variable is unset or lists no origin; otherwise
   the listed origins.
   */
  function CorsOrigins(env: Option<string>): (r: Option<seq<string>>)
    ensures env.None? ==> r.None?
    ensures r.Some? ==> |r.value| > 0 && r.value == Origins(env.value)
    ensures env.Some? && |Origins(env.value)| > 0 ==> r.Some?
  {
    match env
    case None => None
    case Some(s) =>
      var origins := Origins(s);
      if |origins| > 0 then Some(origins) else None
  }

  /** Dropping blanks distributes over concatenation. */
  lemma {:induction false} NonBlankAppend(a: seq<string>, b: seq<string>)
    ensures NonBlank(a + b) == NonBlank(a) + NonBlank(b)
    decreases |a|
  {
    if |a| == 0 {
      assert a + b == b;
    } else {
      assert (a + b)[0] == a[0];
      assert (a + b)[1..] == a[1..] + b;
      NonBlankAppend(a[1..], b);
    }
  }

  /** Trimming each piece distributes over concatenation of piece lists. */
  lemma TrimAllAppend(a: seq<string>, b: seq<string>)
    ensures TrimAll(a + b) == TrimAll(a) + TrimAll(b)
  {
  }

  /**
   Origins are read left to right, segment by segment: the origins of
   `a,b` are those of `a` followed by those of `b`.
   */
  lemma OriginsConcat(a: string, b: string)
    ensures Origins(a + "," + b) == Origins(a) + Origins(b)
  {
    assert a + "," + b == a + [','] + b;
    Strings.SplitConcat(a, b, ',');
    var pa := Strings.Split(a, ',');
    var pb := Strings.Split(b, ',');
    TrimAllAppend(pa, pb);
    assert TrimAll(pa + pb) == TrimAll(pa) + TrimAll(pb);
    NonBlankAppend(TrimAll(pa), TrimAll(pb));
    assert Origins(a + "," + b) == NonBlank(TrimAll(pa + pb));
    assert Origins(a) == NonBlank(TrimAll(pa));
    assert Origins(b) == NonBlank(TrimAll(pb));
  }

  /** A segment without a comma yields its trimmed self, or nothing when it is blank. */
  lemma OriginsOfSegment(s: string)
    requires ',' !in s
    ensures Origins(s) == if Strings.Trim(s) == "" then [] else [Strings.Trim(s)]
  {
    var t := Strings.Trim(s);
    assert Strings.Split(s, ',') == [s];
    assert TrimAll([s]) == [t];
    assert [t][1..] == [];
    assert NonBlank([t]) == (if t != "" then [t] else []) + NonBlank([]);
  }

  /** Whitespace and commas only: no origin, so the configuration is the permissive default, as if unset. */
  lemma BlankListIsUnrestricted(s: string)
    requires forall i :: 0 <= i < |s| ==> s[i] == ',' || Strings.IsWhitespace(s[i])
    ensures Origins(s) == []
    ensures CorsOrigins(Some(s)) == CorsOrigins(None)
  {
    var parts := Strings.Split(s, ',');
    var trimmed := TrimAll(parts);
    Strings.SplitChars(s, ',');
    forall j | 0 <= j < |parts| ensures trimmed[j] == "" {
      forall k | 0 <= k < |parts[j]| ensures Strings.IsWhitespace(parts[j][k]) {
        var c := parts[j][k];
        assert c in parts[j] && c != ',';
        assert c in s;
        var idx :| 0 <= idx < |s| && s[idx] == c;
      }
    }
  }

  /** The empty value is treated exactly like an unset variable. */
  lemma EmptyValueIsUnrestricted()
    ensures CorsOrigins(Some("")) == CorsOrigins(None)
  {
    BlankListIsUnrestricted("");
  }

  /** One clean origin parses as itself. */
  lemma CleanOriginParses(x: string)
    requires CleanOrigin(x)
    ensures Origins(x) == [x]
  {
    TrimOfTrimmed(x);
    OriginsOfSegment(x);
  }

  /** The empty value lists no origin. */
  lemma NoOriginsInEmpty()
    ensures Origins("") == []
  {
    BlankListIsUnrestricted("");
  }

  /** The tail of a list of clean origins is clean. */
  lemma CleanTail(xs: seq<string>)
    requires |xs| > 0
    requires forall i :: 0 <= i < |xs| ==> CleanOrigin(xs[i])
    ensures forall i :: 0 <= i < |xs[1..]| ==> CleanOrigin(xs[1..][i])
  {
    forall i | 0 <= i < |xs[1..]| ensures CleanOrigin(xs[1..][i]) {
      assert xs[1..][i] == xs[i + 1];
    }
  }

  /** Joining with a comma in front of the rest. */
  lemma JoinCons(xs: seq<string>)
    requires |xs| > 1
    ensures Strings.Join(xs, ",") == xs[0] + "," + Strings.Join(xs[1..], ",")
  {
  }

  /**
   Clean origins round-trip: joining non-empty, trimmed, comma-free origins
   with commas and parsing the result gives them back in order.
   */
  lemma {:induction false} JoinedOriginsRoundTrip(xs: seq<string>)
    requires forall i :: 0 <= i < |xs| ==> CleanOrigin(xs[i])
    ensures Origins(Strings.Join(xs, ",")) == xs
    decreases |xs|
  {
    if |xs| == 0 {
      NoOriginsInEmpty();
    } else if |xs| == 1 {
      CleanOriginParses(xs[0]);
    } else {
      CleanTail(xs);
      JoinedOriginsRoundTrip(xs[1..]);
      RoundTripStep(xs);
    }
  }

  /** One origin in front of a list that already round-trips. */
  lemma RoundTripStep(xs: seq<string>)
    requires |xs| > 1 && CleanOrigin(xs[0])
    requires Origins(Strings.Join(xs[1..], ",")) == xs[1..]
    ensures Origins(Strings.Join(xs, ",")) == xs
  {
    var joined := Strings.Join(xs[1..], ",");
    CleanOriginParses(xs[0]);
    JoinCons(xs);
    OriginsConcat(xs[0], joined);
    assert [xs[0]] + xs[1..] == xs;
  }

  /** Trimming a string that neither starts nor ends with whitespace changes nothing. */
  lemma TrimOfTrimmed(s: string)
    requires Strings.Trimmed(s)
    ensures Strings.Trim(s) == s
  {
    var r := Strings.Trim(s);
    var i: nat :| Strings.TrimmedFrom(r, s, i);
    if s != "" {
      assert !Strings.IsWhitespace(s[0]) && !Strings.IsWhitespace(s[|s| - 1]);
      assert i == 0;
      assert i + |r| == |s|;
    }
  }

  /** `process.env.MONGODB_URI || default`. */
  function MongoUri(env: Option<string>): (uri: string)
    ensures uri != ""
    ensures env.Some? && env.value != "" ==> uri == env.value
    ensures env.None? || env.value == "" ==> uri == DefaultMongoUri
  {
    if env.Some? && env.value != "" then env.value else DefaultMongoUri
  }

  /** The port setting: the variable's text, passed on as is, or the default number. */
  datatype Port = PortFromEnv(text: string) | PortDefault(number: nat)

  /** `process.env.PORT || 5000`: the text is not parsed or checked. */
  function PortSetting(env: Option<string>): (p: Port)
    ensures p.PortDefault? <==> env.None? || env.value == ""
    ensures p.PortDefault? ==> p.number == DefaultPort
    ensures p.PortFromEnv? ==> p.text == env.value && p.text != ""
  {
    if env.Some? && env.value != "" then PortFromEnv(env.value) else PortDefault(DefaultPort)
  }
}
