/** The pure parts of `LogsMiddleware`: the colour and log level chosen for a status code, and
    the redaction of sensitive request-body fields before the body is logged. */
module LogsMiddleware {
  import opened JsValue

  const Red: string := "\U{1B}[31m"
  const Yellow: string := "\U{1B}[33m"
  const Cyan: string := "\U{1B}[36m"
  const Green: string := "\U{1B}[32m"
  const White: string := "\U{1B}[37m"

  /** `getStatusColor`: the ANSI colour escape printed before a status code. */
  function GetStatusColor(statusCode: int): (color: string)
    ensures color == Red <==> statusCode >= 500
    ensures color == Yellow <==> 400 <= statusCode < 500
    ensures color == Cyan <==> 300 <= statusCode < 400
    ensures color == Green <==> 200 <= statusCode < 300
    ensures color == White <==> statusCode < 200
  {
    if statusCode >= 500 then Red
    else if statusCode >= 400 then Yellow
    else if statusCode >= 300 then Cyan
    else if statusCode >= 200 then Green
    else White
  }

  datatype LogLevel = Error | Warn | Log

  /** The logger method `use` calls once the response has finished. */
  function LogLevelFor(statusCode: int): (level: LogLevel)
    ensures level == Error <==> statusCode >= 500
    ensures level == Warn <==> 400 <= statusCode < 500
    ensures level == Log <==> statusCode < 400
  {
    if statusCode >= 500 then Error
    else if statusCode >= 400 then Warn
    else Log
  }

  /** Server errors are printed red and logged as errors, client errors yellow and as warnings;
      every other status is logged at the plain level. */
  lemma LevelMatchesColor(statusCode: int)
    ensures LogLevelFor(statusCode) == Error <==> GetStatusColor(statusCode) == Red
    ensures LogLevelFor(statusCode) == Warn <==> GetStatusColor(statusCode) == Yellow
    ensures LogLevelFor(statusCode) == Log <==>
      GetStatusColor(statusCode) in {Cyan, Green, White}
  {
  }

  const SensitiveFields: seq<string> :=
    ["password", "currentPassword", "newPassword", "token", "secret", "key"]

  const RedactedMark: string := "***REDACTED***"

  /** The own enumerable properties of an object or array, as `{ ...body }` copies them:
      an array's elements land under their decimal indices. */
  function Spread(body: Value): (fields: map<string, Value>)
    requires body.Obj? || body.Arr?
  {
    if body.Obj? then body.fields
    else
      assert forall i, j ::
        (0 <= i < |body.items| && 0 <= j < |body.items| && NatToString(i) == NatToString(j)) ==> i == j
      by {
        forall i, j | 0 <= i < |body.items| && 0 <= j < |body.items| &&
          NatToString(i) == NatToString(j) ensures i == j {
          NatToStringInjective(i, j);
        }
      }
      map i | 0 <= i < |body.items| :: NatToString(i) := body.items[i]
  }

  /** What the copy holds for `key` once the first `n` sensitive fields have been visited. */
  function RedactedUpTo(fields: map<string, Value>, n: nat, key: string): Value
    requires n <= |SensitiveFields| && key in fields
  {
    if key in SensitiveFields[..n] && Truthy(fields[key]) then Str(RedactedMark) else fields[key]
  }

  /** The value `sanitizeBody` returns. */
  function Sanitized(body: Value): Value
  {
    if !Truthy(body) || !IsTypeofObject(body) then body
    else
      var fields := Spread(body);
      Obj(map key | key in fields :: RedactedUpTo(fields, |SensitiveFields|, key))
  }

  /** `sanitizeBody`: copies the body and overwrites each truthy sensitive field. */
  method SanitizeBody(body: Value) returns (result: Value)
    ensures result == Sanitized(body)
  {
    if !Truthy(body) || !IsTypeofObject(body) {
      return body;
    }
    var original := Spread(body);
    var sanitized := original;
    for n := 0 to |SensitiveFields|
      invariant sanitized.Keys == original.Keys
      invariant forall key :: key in sanitized ==> sanitized[key] == RedactedUpTo(original, n, key)
    {
      var field := SensitiveFields[n];
      RedactStep(original, sanitized, n);
      if field in sanitized && Truthy(sanitized[field]) {
        sanitized := sanitized[field := Str(RedactedMark)];
      }
    }
    assert sanitized == map key | key in original :: RedactedUpTo(original, |SensitiveFields|, key);
    result := Obj(sanitized);
  }

  /** One turn of the loop in `sanitizeBody` moves the copy from the first `n` sensitive fields
      visited to the first `n + 1`. */
  lemma RedactStep(original: map<string, Value>, sanitized: map<string, Value>, n: nat)
    requires n < |SensitiveFields| && sanitized.Keys == original.Keys
    requires forall key :: key in sanitized ==> sanitized[key] == RedactedUpTo(original, n, key)
    ensures var field := SensitiveFields[n];
      var next := if field in sanitized && Truthy(sanitized[field])
                  then sanitized[field := Str(RedactedMark)] else sanitized;
      forall key :: key in next ==> next[key] == RedactedUpTo(original, n + 1, key)
  {
    var field := SensitiveFields[n];
    assert SensitiveFields[..n + 1] == SensitiveFields[..n] + [field];
    assert field !in SensitiveFields[..n];
  }

  /** Falsy bodies and bodies that are not objects are returned as they are. */
  lemma NonObjectUnchanged(body: Value)
    requires !Truthy(body) || !IsTypeofObject(body)
    ensures Sanitized(body) == body
  {
  }

  /** Every sensitive field with a truthy value is replaced by the redaction mark; every other
      field, and every sensitive field with a falsy value, keeps its value; no field is added
      or dropped. */
  lemma RedactionExact(body: Value)
    requires body.Obj? || body.Arr?
    ensures Sanitized(body).Obj?
    ensures Sanitized(body).fields.Keys == Spread(body).Keys
    ensures forall key :: key in Spread(body) ==>
      Sanitized(body).fields[key] ==
        if key in SensitiveFields && Truthy(Spread(body)[key]) then Str(RedactedMark)
        else Spread(body)[key]
  {
    assert SensitiveFields[..|SensitiveFields|] == SensitiveFields;
  }

  /** Sanitizing twice gives what sanitizing once gives. */
  lemma SanitizeIdempotent(body: Value)
    ensures Sanitized(Sanitized(body)) == Sanitized(body)
  {
    if Truthy(body) && IsTypeofObject(body) {
      RedactionExact(body);
      var once := Sanitized(body);
      RedactionExact(once);
      assert Spread(once) == once.fields;
      assert Sanitized(once).fields == once.fields;
    }
  }
}
