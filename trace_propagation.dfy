/**
 * The RestTemplate interceptor that propagates the trace context to backend
 * calls: with a current Micrometer span it sets a W3C `traceparent` header
 * built from the normalised trace and span ids; otherwise the OpenTelemetry
 * propagator adds its headers. Then the request is executed.
 */
module TracePropagation {
  import opened Wrappers
  import opened JavaStrings
  import opened HttpHeaders

  // ---------------------------------------------------------------------------
  // `normalizeHex`

  predicate IsHexChar(c: char) {
    '0' <= c <= '9' || 'a' <= c <= 'f' || 'A' <= c <= 'F'
  }

  predicate IsLowerHex(c: char) {
    '0' <= c <= '9' || 'a' <= c <= 'f'
  }

  /** `replaceAll("[^0-9a-fA-F]", "")`: the hex digits, in order. */
  function HexOnly(s: string): (r: string)
    ensures |r| <= |s|
    ensures forall i :: 0 <= i < |r| ==> IsHexChar(r[i])
    decreases |s|
  {
    if s == [] then [] else (if IsHexChar(s[0]) then [s[0]] else []) + HexOnly(s[1..])
  }

  function Zeros(n: nat): (r: string)
    ensures |r| == n
  {
    seq(n, _ => '0')
  }

  /** `normalizeHex(hex, length)`: None stands for null. */
  function NormalizeHex(hex: Option<string>, length: nat): string {
    if hex.None? then Zeros(length)
    else
      var h := Lower(HexOnly(hex.value));
      if |h| == length then h
      else if |h| > length then h[..length]
      else h + Zeros(length - |h|)
  }

  /**
   * The normalised id has exactly the requested length and only lower-case
   * hex digits: the input's hex digits, lowered, truncated or padded with
   * '0' on the right.
   */
  lemma NormalizeHexSpec(hex: Option<string>, length: nat)
    ensures var r := NormalizeHex(hex, length);
            |r| == length && (forall i :: 0 <= i < |r| ==> IsLowerHex(r[i]))
    ensures hex.Some? ==> NormalizeHex(hex, length) == (Lower(HexOnly(hex.value)) + Zeros(length))[..length]
    ensures hex.None? ==> NormalizeHex(hex, length) == Zeros(length)
  {
    if hex.Some? {
      var h := Lower(HexOnly(hex.value));
      var r := NormalizeHex(hex, length);
      forall i | 0 <= i < |h| ensures IsLowerHex(h[i]) {
        assert IsHexChar(HexOnly(hex.value)[i]);
      }
      if |h| < length {
        assert (h + Zeros(length))[..length] == h + Zeros(length - |h|);
      } else {
        assert (h + Zeros(length))[..length] == h[..length];
      }
    }
  }

  lemma {:induction false} HexOnlyOfHex(s: string)
    requires forall i :: 0 <= i < |s| ==> IsHexChar(s[i])
    ensures HexOnly(s) == s
    decreases |s|
  {
    if s != [] {
      HexOnlyOfHex(s[1..]);
      assert [s[0]] + s[1..] == s;
    }
  }

  /** Normalising an already normalised id changes nothing. */
  lemma NormalizeHexIdempotent(hex: Option<string>, length: nat)
    ensures NormalizeHex(Some(NormalizeHex(hex, length)), length) == NormalizeHex(hex, length)
  {
    var r := NormalizeHex(hex, length);
    NormalizeHexSpec(hex, length);
    HexOnlyOfHex(r);
    assert Lower(r) == r;
  }

  /** Ids whose hex digits already fill the length pass through lowered, and an id without hex digits becomes all zeros. */
  lemma NormalizeHexExamples()
    ensures NormalizeHex(Some("AB-cd"), 4) == "abcd"
    ensures NormalizeHex(Some("xyz"), 3) == "000"
    ensures NormalizeHex(Some("12345"), 2) == "12"
  {
    assert HexOnly("AB-cd") == "ABcd";
    assert HexOnly("xyz") == [];
    assert HexOnly("12345") == "12345";
  }

  // ---------------------------------------------------------------------------
  // The traceparent header

  /** `String.format("00-%s-%s-01", ...)` of the normalised ids. */
  function Traceparent(traceId: string, spanId: string): string {
    "00-" + NormalizeHex(Some(traceId), 32) + "-" + NormalizeHex(Some(spanId), 16) + "-01"
  }

  /** The header has the W3C layout: version 00, 32-digit trace id, 16-digit parent id, flags 01. */
  lemma TraceparentLayout(traceId: string, spanId: string)
    ensures var tp := Traceparent(traceId, spanId);
            |tp| == 55 && tp[..3] == "00-" && tp[3..35] == NormalizeHex(Some(traceId), 32)
            && tp[35] == '-' && tp[36..52] == NormalizeHex(Some(spanId), 16) && tp[52..] == "-01"
  {
    NormalizeHexSpec(Some(traceId), 32);
    NormalizeHexSpec(Some(spanId), 16);
  }

  // ---------------------------------------------------------------------------
  // `intercept`

  /** The current Micrometer span context; None when there is no tracer, no current span or no context. */
  datatype SpanContext = SpanContext(traceId: Option<string>, spanId: Option<string>)

  /** How one execution of the request ends: a response, or an exception. */
  datatype Execution = Executed(status: int) | Failure

  /** The outgoing request whose headers the interceptor changes. */
  class ClientRequest {
    var headers: Headers

    constructor (headers: Headers)
      ensures this.headers == headers
    {
      this.headers := headers;
    }
  }

  /** Both ids are present and not empty. */
  predicate MicrometerUsable(span: Option<SpanContext>) {
    span.Some? && span.value.traceId.Some? && span.value.spanId.Some?
    && span.value.traceId.value != [] && span.value.spanId.value != []
  }

  function AddPairs(h: Headers, pairs: seq<(string, string)>): Headers
    decreases |pairs|
  {
    if pairs == [] then h else AddPairs(Add(h, pairs[0].0, pairs[0].1), pairs[1..])
  }

  /**
   * The headers after injection: `set("traceparent", ...)` on the Micrometer
   * path, otherwise the OpenTelemetry propagator's key/value pairs added in order.
   */
  function Injected(h: Headers, span: Option<SpanContext>, otelPairs: seq<(string, string)>): Headers {
    if MicrometerUsable(span) then Set(h, "traceparent", Traceparent(span.value.traceId.value, span.value.spanId.value))
    else AddPairs(h, otelPairs)
  }

  /**
   * How many times the request is executed as the code is written: on the
   * Micrometer path a failed execution is caught by the handler meant for
   * injection failures, and the request is executed a second time.
   */
  function AttemptsAsWritten(span: Option<SpanContext>, injected: Headers, execute: (nat, Headers) -> Execution): nat {
    if MicrometerUsable(span) && execute(0, injected).Failure? then 2 else 1
  }

  /** `intercept` as written. `execute(k, headers)` is the k-th execution of the request. */
  method Intercept(request: ClientRequest, span: Option<SpanContext>, otelPairs: seq<(string, string)>,
                   execute: (nat, Headers) -> Execution)
    returns (result: Execution, attempts: nat)
    modifies request
    ensures request.headers == Injected(old(request.headers), span, otelPairs)
    ensures attempts == AttemptsAsWritten(span, request.headers, execute)
    ensures result == execute(attempts - 1, request.headers)
  {
    attempts := 0;
    if MicrometerUsable(span) {
      var traceparent := Traceparent(span.value.traceId.value, span.value.spanId.value);
      request.headers := Set(request.headers, "traceparent", traceparent);
      result := execute(attempts, request.headers);
      attempts := attempts + 1;
      if result.Executed? {
        return;
      }
    } else {
      var i := 0;
      while i < |otelPairs|
        invariant 0 <= i <= |otelPairs|
        invariant AddPairs(request.headers, otelPairs[i..]) == AddPairs(old(request.headers), otelPairs)
      {
        assert otelPairs[i..][1..] == otelPairs[i + 1..];
        request.headers := Add(request.headers, otelPairs[i].0, otelPairs[i].1);
        i := i + 1;
      }
    }
    result := execute(attempts, request.headers);
    attempts := attempts + 1;
  }

  /** `intercept` with the try block guarding only the injection: the request is executed exactly once. */
  method InterceptOnce(request: ClientRequest, span: Option<SpanContext>, otelPairs: seq<(string, string)>,
                       execute: (nat, Headers) -> Execution)
    returns (result: Execution, attempts: nat)
    modifies request
    ensures request.headers == Injected(old(request.headers), span, otelPairs)
    ensures attempts == 1 && result == execute(0, request.headers)
  {
    if MicrometerUsable(span) {
      var traceparent := Traceparent(span.value.traceId.value, span.value.spanId.value);
      request.headers := Set(request.headers, "traceparent", traceparent);
    } else {
      var i := 0;
      while i < |otelPairs|
        invariant 0 <= i <= |otelPairs|
        invariant AddPairs(request.headers, otelPairs[i..]) == AddPairs(old(request.headers), otelPairs)
      {
        assert otelPairs[i..][1..] == otelPairs[i + 1..];
        request.headers := Add(request.headers, otelPairs[i].0, otelPairs[i].1);
        i := i + 1;
      }
    }
    result := execute(0, request.headers);
    attempts := 1;
  }

  /**
   * As written, a request whose first execution fails on the Micrometer path
   * is sent again with the same headers, and the second outcome is returned.
   */
  lemma FailedExecutionIsRepeated(span: Option<SpanContext>, injected: Headers, execute: (nat, Headers) -> Execution)
    requires MicrometerUsable(span) && execute(0, injected).Failure?
    ensures AttemptsAsWritten(span, injected, execute) == 2
  {
  }

  /** A concrete case: a POST that times out once is delivered twice when the retry succeeds. */
  lemma FailedExecutionExample()
    ensures var span := Some(SpanContext(Some("4bf92f3577b34da6a3ce929d0e0e4736"), Some("00f067aa0ba902b7")));
            var execute := (k: nat, _: Headers) => if k == 0 then Failure else Executed(200);
            AttemptsAsWritten(span, [], execute) == 2 && execute(AttemptsAsWritten(span, [], execute) - 1, []) == Executed(200)
  {
  }

  /** On the Micrometer path the request carries exactly one traceparent value: the formatted ids. */
  lemma TraceparentInjected(h: Headers, span: Option<SpanContext>, otelPairs: seq<(string, string)>, m: string)
    requires WellFormed(h) && MicrometerUsable(span)
    ensures Get(Injected(h, span, otelPairs), m) ==
              if Key(m) == "traceparent" then Some([Traceparent(span.value.traceId.value, span.value.spanId.value)]) else Get(h, m)
  {
    var tp := Traceparent(span.value.traceId.value, span.value.spanId.value);
    assert Injected(h, span, otelPairs) == Put(h, "traceparent", [tp]);
    TraceparentKey();
    PutGetLower(h, "traceparent", [tp], m);
  }

  lemma PutGetLower(h: Headers, name: string, values: seq<string>, m: string)
    requires WellFormed(h) && Key(name) == "traceparent"
    ensures Get(Put(h, name, values), m) == if Key(m) == "traceparent" then Some(values) else Get(h, m)
  {
    PutGet(h, name, values, m);
  }

  lemma TraceparentKey()
    ensures Key("traceparent") == "traceparent"
  {
  }

  /** Without a usable span, the present headers are kept and the propagator's values come after them. */
  lemma {:induction false} OtelPairsAppended(h: Headers, pairs: seq<(string, string)>, m: string)
    requires WellFormed(h)
    ensures WellFormed(AddPairs(h, pairs))
    ensures Get(h, m).Some? ==> Get(AddPairs(h, pairs), m).Some? && Get(h, m).value <= Get(AddPairs(h, pairs), m).value
    decreases |pairs|
  {
    if pairs != [] {
      var h' := Add(h, pairs[0].0, pairs[0].1);
      AddWellFormed(h, pairs[0].0, pairs[0].1);
      AddGet(h, pairs[0].0, pairs[0].1, m);
      if Key(m) == Key(pairs[0].0) {
        GetSameKey(h, pairs[0].0, m);
      }
      OtelPairsAppended(h', pairs[1..], m);
    }
  }
}
