/**
 * Form parsing of the token-creation request: the enumerated size and
 * duration labels, and `parse_token_` over the submitted form fields.
 * Durations are in seconds.
 */
module Api {
  import opened Wrappers

  const HOUR: int := 3600
  const DAY: int := 24 * HOUR
  const WEEK: int := 7 * DAY

  /** Isomorphic to Option: a quantity that may have no upper bound. */
  datatype Quantity<T> = Bounded(value: T) | Unbounded

  /** `From<Quantity<T>> for Option<T>`. */
  function QuantityToOption<T>(q: Quantity<T>): (o: Option<T>)
    ensures q.Unbounded? <==> o.None?
    ensures q.Bounded? ==> o == Some(q.value)
  {
    match q
    case Unbounded => None
    case Bounded(x) => Some(x)
  }

  /** The conversion loses nothing: distinct quantities give distinct options. */
  lemma QuantityToOptionInjective<T>(a: Quantity<T>, b: Quantity<T>)
    ensures QuantityToOption(a) == QuantityToOption(b) ==> a == b
  {
  }

  /** The accepted size labels and their bounds in MiB, as a table. */
  const SIZE_LABELS: map<string, Quantity<nat>> := map[
    "Unlimited" := Unbounded,
    "1MB" := Bounded(1),
    "10MB" := Bounded(10),
    "200MB" := Bounded(200),
    "1GB" := Bounded(1024),
    "5GB" := Bounded(5 * 1024)]

  /** The accepted duration labels and their lengths, as a table. */
  const DURATION_LABELS: map<string, int> := map[
    "1Hour" := HOUR,
    "1Day" := DAY,
    "1Week" := WEEK,
    "1Month" := 31 * DAY]

  /** `parse_size`. */
  function ParseSize(raw: string): (r: Result<Quantity<nat>, string>)
    ensures r.Ok? <==> raw in SIZE_LABELS
    ensures r.Ok? ==> r.value == SIZE_LABELS[raw]
    ensures r.Err? ==> r.error == "cannot parse quantity<u32> from " + raw
  {
    if raw == "Unlimited" then Ok(Unbounded)
    else if raw == "1MB" then Ok(Bounded(1))
    else if raw == "10MB" then Ok(Bounded(10))
    else if raw == "200MB" then Ok(Bounded(200))
    else if raw == "1GB" then Ok(Bounded(1024))
    else if raw == "5GB" then Ok(Bounded(5 * 1024))
    else Err("cannot parse quantity<u32> from " + raw)
  }

  /** `parse_duration`. */
  function ParseDuration(raw: string): (r: Result<int, string>)
    ensures r.Ok? <==> raw in DURATION_LABELS
    ensures r.Ok? ==> r.value == DURATION_LABELS[raw] && r.value > 0 && r.value % HOUR == 0
    ensures r.Err? ==> r.error == "cannot parse Duration from " + raw
  {
    if raw == "1Hour" then Ok(HOUR)
    else if raw == "1Day" then Ok(DAY)
    else if raw == "1Week" then Ok(WEEK)
    else if raw == "1Month" then Ok(31 * DAY)
    else Err("cannot parse Duration from " + raw)
  }

  /** The bounds in hours: 1, 24, 168 and 744. */
  lemma DurationHours()
    ensures ParseDuration("1Hour") == Ok(1 * HOUR)
    ensures ParseDuration("1Day") == Ok(24 * HOUR)
    ensures ParseDuration("1Week") == Ok(168 * HOUR)
    ensures ParseDuration("1Month") == Ok(744 * HOUR)
  {
  }

  /** `parse_valid_for`: "DoesntExpire" is unbounded, anything else goes through `parse_duration`. */
  function ParseValidFor(raw: string): (r: Result<Quantity<int>, string>)
    ensures raw == "DoesntExpire" ==> r == Ok(Unbounded)
    ensures raw != "DoesntExpire" ==> (r.Ok? <==> ParseDuration(raw).Ok?)
    ensures raw != "DoesntExpire" && r.Ok? ==> r.value == Bounded(ParseDuration(raw).value)
    ensures r.Err? ==> r.error == ParseDuration(raw).error
  {
    if raw == "DoesntExpire" then Ok(Unbounded)
    else
      match ParseDuration(raw)
      case Ok(d) => Ok(Bounded(d))
      case Err(e) => Err(e)
  }

  /** The token request as parsed from the form. */
  datatype TokenRequest = TokenRequest(
    path: string,
    maxSizeInMb: Quantity<nat>,
    contentExpiresAfter: int,
    tokenValidFor: Quantity<int>)

  type Form = map<string, string>

  /** `form.get(key).ok_or(missing)` followed by the field's parser. */
  function Field<T>(form: Form, key: string, missing: string, parse: string -> Result<T, string>): Result<T, string> {
    if key in form then parse(form[key]) else Err(missing)
  }

  /** `parse_token_`: the fields are read in the order path, max-size, expires, valid-for. */
  function ParseToken(form: Form): (r: Result<TokenRequest, string>)
    ensures "path" !in form ==> r == Err("Missing path")
    ensures r.Ok? ==> "path" in form && r.value.path == form["path"]
    ensures r.Ok? ==> r.value.maxSizeInMb in SIZE_LABELS.Values
    ensures r.Ok? ==> r.value.contentExpiresAfter > 0 && r.value.contentExpiresAfter % HOUR == 0
    ensures r.Ok? && r.value.tokenValidFor.Bounded? ==> r.value.tokenValidFor.value in DURATION_LABELS.Values
  {
    if "path" !in form then Err("Missing path")
    else
      var path := form["path"];
      match Field(form, "max-size", "Missing max-size", ParseSize)
      case Err(e) => Err(e)
      case Ok(maxSize) =>
        match Field(form, "expires", "Missing expires", ParseDuration)
        case Err(e) => Err(e)
        case Ok(expires) =>
          match Field(form, "valid-for", "Missing valid-for", ParseValidFor)
          case Err(e) => Err(e)
          case Ok(validFor) => Ok(TokenRequest(path, maxSize, expires, validFor))
  }

  /** The first failing field, in form order, decides the error message. */
  lemma ParseTokenFirstError(form: Form)
    ensures "path" !in form ==> ParseToken(form) == Err("Missing path")
    ensures "path" in form && "max-size" !in form ==> ParseToken(form) == Err("Missing max-size")
    ensures "path" in form && "max-size" in form && ParseSize(form["max-size"]).Err? ==>
      ParseToken(form) == Err(ParseSize(form["max-size"]).error)
    ensures "path" in form && "max-size" in form && ParseSize(form["max-size"]).Ok? && "expires" !in form ==>
      ParseToken(form) == Err("Missing expires")
    ensures ("path" in form && "max-size" in form && ParseSize(form["max-size"]).Ok? && "expires" in form &&
             ParseDuration(form["expires"]).Err?) ==>
      ParseToken(form) == Err(ParseDuration(form["expires"]).error)
    ensures ("path" in form && "max-size" in form && ParseSize(form["max-size"]).Ok? && "expires" in form &&
             ParseDuration(form["expires"]).Ok? && "valid-for" !in form) ==>
      ParseToken(form) == Err("Missing valid-for")
    ensures ("path" in form && "max-size" in form && ParseSize(form["max-size"]).Ok? && "expires" in form &&
             ParseDuration(form["expires"]).Ok? && "valid-for" in form && ParseValidFor(form["valid-for"]).Err?) ==>
      ParseToken(form) == Err(ParseValidFor(form["valid-for"]).error)
  {
  }

  /** A form parses exactly when all four keys are present and each value parses; the path is taken verbatim. */
  lemma ParseTokenSuccess(form: Form)
    ensures ParseToken(form).Ok? <==>
      && "path" in form
      && "max-size" in form && form["max-size"] in SIZE_LABELS
      && "expires" in form && form["expires"] in DURATION_LABELS
      && "valid-for" in form && (form["valid-for"] == "DoesntExpire" || form["valid-for"] in DURATION_LABELS)
    ensures ParseToken(form).Ok? ==>
      ParseToken(form).value == TokenRequest(
        form["path"],
        SIZE_LABELS[form["max-size"]],
        DURATION_LABELS[form["expires"]],
        if form["valid-for"] == "DoesntExpire" then Unbounded else Bounded(DURATION_LABELS[form["valid-for"]]))
  {
  }

  /** An empty path is accepted. */
  lemma ParseTokenAcceptsEmptyPath()
    ensures ParseToken(map["path" := "", "max-size" := "1MB", "expires" := "1Hour", "valid-for" := "1Day"])
         == Ok(TokenRequest("", Bounded(1), HOUR, Bounded(DAY)))
  {
  }
}
