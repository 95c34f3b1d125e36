/**
 * backend/src/services/validationService.js: the Joi schemas for the
 * registration and login bodies. Joi's email-format check is foreign and is
 * passed in as `isEmail`; the messages are Joi's default English templates.
 */
module Validation {
  import opened Common

  /** A JSON value as the body parser produces it: a string, or anything else (number, null, object, ...). */
  datatype JsonValue = Str(s: string) | NonString

  /** Key-value entries in object order. */
  type Entries = seq<(string, JsonValue)>

  /**
   * A parsed JSON object: its keys in order, with their values. `JSON.parse` keeps one
   * entry per key (the last one written), so no key occurs twice.
   */
  type JsonObject = b: Entries | forall i, j :: 0 <= i < j < |b| ==> b[i].0 != b[j].0 witness []

  /** The rules `Joi.string()[.email()][.alphanum()][.min(n)][.max(n)].required()` of one key. */
  datatype KeyRules = KeyRules(key: string, email: bool, alphanum: bool, min: Option<nat>, max: Option<nat>)

  /** The Joi error types this model produces. */
  datatype Rule = Required | NotAString | Empty | EmailFormat | Alphanum | MinLength(limit: nat) | MaxLength(limit: nat) | NotAllowed

  /** One entry of `error.details`: the offending key and the rule it broke. */
  datatype Detail = Detail(key: string, rule: Rule)

  /** The fields of an accepted registration body. */
  datatype Registration = Registration(email: string, password: string, firstName: string, lastName: string)

  /** The fields of an accepted login body. */
  datatype Credentials = Credentials(email: string, password: string)

  const RegistrationSchema: seq<KeyRules> := [
    KeyRules("email", true, false, None, None),
    KeyRules("password", false, false, Some(8), None),
    KeyRules("firstName", false, true, Some(2), Some(50)),
    KeyRules("lastName", false, true, Some(2), Some(50))
  ]

  const LoginSchema: seq<KeyRules> := [
    KeyRules("email", true, false, None, None),
    KeyRules("password", false, false, None, None)
  ]

  /** The value of `key` in the object, or nothing when the key is absent. */
  function Lookup(body: Entries, key: string): (r: Option<JsonValue>)
    ensures r.Some? ==> exists i :: 0 <= i < |body| && body[i] == (key, r.value)
    ensures r.None? ==> forall i :: 0 <= i < |body| ==> body[i].0 != key
  {
    if |body| == 0 then None
    else if body[0].0 == key then Some(body[0].1)
    else
      var r := Lookup(body[1..], key);
      assert r.Some? ==> exists i :: 0 <= i < |body[1..]| && body[1..][i] == (key, r.value);
      assert r.Some? ==> exists i :: 1 <= i < |body| && body[i] == (key, r.value);
      r
  }

  /** The entry with a key, wherever it stands in the object, is the one Lookup finds. */
  lemma {:induction false} LookupAt(body: JsonObject, i: nat, key: string)
    requires i < |body| && body[i].0 == key
    ensures Lookup(body, key) == Some(body[i].1)
  {
    if i > 0 {
      var rest: JsonObject := body[1..];
      assert rest[i - 1] == body[i];
      LookupAt(rest, i - 1, key);
    }
  }

  /** The string value of `key`, or "" when it is absent or not a string. */
  function StrOf(body: JsonObject, key: string): string
  {
    match Lookup(body, key)
    case Some(Str(s)) => s
    case _ => ""
  }

  /** Joi's alphanum(): letters a-z, A-Z and digits only. */
  predicate IsAlphanumChar(c: char)
  {
    'a' <= c <= 'z' || 'A' <= c <= 'Z' || '0' <= c <= '9'
  }

  predicate IsAlphanum(s: string)
  {
    forall i :: 0 <= i < |s| ==> IsAlphanumChar(s[i])
  }

  /**
   * The errors one key produces, in rule order. A missing key breaks
   * `required`, a non-string breaks the type, an empty string is refused
   * before any rule runs; otherwise every failing rule is reported.
   */
  function KeyErrors(k: KeyRules, v: Option<JsonValue>, isEmail: string -> bool): (r: seq<Detail>)
    ensures forall i :: 0 <= i < |r| ==> r[i].key == k.key
  {
    match v
    case None => [Detail(k.key, Required)]
    case Some(NonString) => [Detail(k.key, NotAString)]
    case Some(Str(s)) =>
      if s == "" then [Detail(k.key, Empty)]
      else
        (if k.email && !isEmail(s) then [Detail(k.key, EmailFormat)] else [])
        + (if k.alphanum && !IsAlphanum(s) then [Detail(k.key, Alphanum)] else [])
        + (if k.min.Some? && |s| < k.min.value then [Detail(k.key, MinLength(k.min.value))] else [])
        + (if k.max.Some? && |s| > k.max.value then [Detail(k.key, MaxLength(k.max.value))] else [])
  }

  /** A key's value passes all of its rules. */
  ghost predicate KeyOk(k: KeyRules, v: Option<JsonValue>, isEmail: string -> bool)
  {
    && v.Some? && v.value.Str? && v.value.s != ""
    && (k.email ==> isEmail(v.value.s))
    && (k.alphanum ==> IsAlphanum(v.value.s))
    && (k.min.Some? ==> |v.value.s| >= k.min.value)
    && (k.max.Some? ==> |v.value.s| <= k.max.value)
  }

  lemma KeyErrorsEmptyIffOk(k: KeyRules, v: Option<JsonValue>, isEmail: string -> bool)
    ensures KeyErrors(k, v, isEmail) == [] <==> KeyOk(k, v, isEmail)
  {
  }

  /** The errors of the schema's keys, key by key in schema order. */
  function SchemaErrors(schema: seq<KeyRules>, body: JsonObject, isEmail: string -> bool): seq<Detail>
  {
    if |schema| == 0 then []
    else KeyErrors(schema[0], Lookup(body, schema[0].key), isEmail) + SchemaErrors(schema[1..], body, isEmail)
  }

  predicate InSchema(schema: seq<KeyRules>, key: string)
  {
    exists i :: 0 <= i < |schema| && schema[i].key == key
  }

  /** One `is not allowed` error per key of the object that the schema does not name, in object order. */
  function UnknownKeys(schema: seq<KeyRules>, body: Entries): (r: seq<Detail>)
    ensures r == [] <==> forall i :: 0 <= i < |body| ==> InSchema(schema, body[i].0)
  {
    if |body| == 0 then []
    else
      (if InSchema(schema, body[0].0) then [] else [Detail(body[0].0, NotAllowed)])
      + (assert forall i :: 1 <= i < |body| ==> body[i] == body[1..][i - 1]; UnknownKeys(schema, body[1..]))
  }

  /** Every error Joi collects with `abortEarly: false`: the schema's keys first, then the unknown keys. */
  function AllErrors(schema: seq<KeyRules>, body: JsonObject, isEmail: string -> bool): seq<Detail>
  {
    SchemaErrors(schema, body, isEmail) + UnknownKeys(schema, body)
  }

  /** The schema's keys produce no error exactly when each key passes its rules. */
  lemma {:induction false} SchemaErrorsEmptyIff(schema: seq<KeyRules>, body: JsonObject, isEmail: string -> bool)
    ensures SchemaErrors(schema, body, isEmail) == [] <==>
              forall i :: 0 <= i < |schema| ==> KeyOk(schema[i], Lookup(body, schema[i].key), isEmail)
  {
    if |schema| > 0 {
      SchemaErrorsEmptyIff(schema[1..], body, isEmail);
      KeyErrorsEmptyIffOk(schema[0], Lookup(body, schema[0].key), isEmail);
      assert forall i :: 1 <= i < |schema| ==> schema[i] == schema[1..][i - 1];
    }
  }

  /** Every error of every key is in the collected list: validation does not stop at the first failing field. */
  lemma {:induction false} SchemaErrorsReportEveryKey(schema: seq<KeyRules>, body: JsonObject, isEmail: string -> bool, i: int)
    requires 0 <= i < |schema|
    ensures forall d :: d in KeyErrors(schema[i], Lookup(body, schema[i].key), isEmail) ==> d in SchemaErrors(schema, body, isEmail)
  {
    var head := KeyErrors(schema[0], Lookup(body, schema[0].key), isEmail);
    var tail := SchemaErrors(schema[1..], body, isEmail);
    assert SchemaErrors(schema, body, isEmail) == head + tail;
    if i > 0 {
      assert schema[1..][i - 1] == schema[i];
      SchemaErrorsReportEveryKey(schema[1..], body, isEmail, i - 1);
    }
  }

  /** `key` is present and holds a non-empty string. */
  ghost predicate FilledString(body: JsonObject, key: string)
  {
    Lookup(body, key).Some? && Lookup(body, key).value.Str? && StrOf(body, key) != ""
  }

  /** A key holding a non-empty string is filled, with that string. */
  lemma FilledWith(body: JsonObject, key: string, value: string)
    requires Lookup(body, key) == Some(Str(value)) && value != ""
    ensures FilledString(body, key) && StrOf(body, key) == value
  {
  }

  /** Every key of the object is one of `keys`. */
  ghost predicate OnlyKeys(body: JsonObject, keys: set<string>)
  {
    forall i :: 0 <= i < |body| ==> body[i].0 in keys
  }

  /** The fields the registration schema accepts, stated field by field. */
  ghost predicate RegistrationFieldsOk(body: JsonObject, isEmail: string -> bool)
  {
    && FilledString(body, "email") && isEmail(StrOf(body, "email"))
    && FilledString(body, "password") && |StrOf(body, "password")| >= 8
    && NameAcceptable(body, "firstName") && NameAcceptable(body, "lastName")
  }

  /** A name: a present string of 2 to 50 alphanumeric characters. */
  ghost predicate NameAcceptable(body: JsonObject, key: string)
  {
    FilledString(body, key) && IsAlphanum(StrOf(body, key)) && 2 <= |StrOf(body, key)| <= 50
  }

  /** The bodies the registration schema accepts. */
  ghost predicate RegistrationAcceptable(body: JsonObject, isEmail: string -> bool)
  {
    RegistrationFieldsOk(body, isEmail) && OnlyKeys(body, {"email", "password", "firstName", "lastName"})
  }

  /** What the rules of one key demand of the object, in terms of its string value. */
  lemma KeyOkInBody(k: KeyRules, body: JsonObject, isEmail: string -> bool)
    ensures KeyOk(k, Lookup(body, k.key), isEmail) <==>
              && FilledString(body, k.key)
              && (k.email ==> isEmail(StrOf(body, k.key)))
              && (k.alphanum ==> IsAlphanum(StrOf(body, k.key)))
              && (k.min.Some? ==> |StrOf(body, k.key)| >= k.min.value)
              && (k.max.Some? ==> |StrOf(body, k.key)| <= k.max.value)
  {
  }

  /** No key of the object is unknown to a schema exactly when the object uses only the schema's keys. */
  lemma UnknownKeysEmptyIff(schema: seq<KeyRules>, body: JsonObject, keys: set<string>)
    requires forall key :: InSchema(schema, key) <==> key in keys
    ensures UnknownKeys(schema, body) == [] <==> OnlyKeys(body, keys)
  {
  }

  /** No error at all exactly when the schema's keys pass and no other key is used. */
  lemma AllErrorsEmptyIff(schema: seq<KeyRules>, body: JsonObject, isEmail: string -> bool, keys: set<string>, fieldsOk: bool)
    requires forall key :: InSchema(schema, key) <==> key in keys
    requires SchemaErrors(schema, body, isEmail) == [] <==> fieldsOk
    ensures AllErrors(schema, body, isEmail) == [] <==> fieldsOk && OnlyKeys(body, keys)
  {
    UnknownKeysEmptyIff(schema, body, keys);
    var (a, b) := (SchemaErrors(schema, body, isEmail), UnknownKeys(schema, body));
    assert a + b == [] ==> |a| == 0 && |b| == 0;
  }

  /** A key is named by the registration schema exactly when it is one of its four keys. */
  lemma InRegistrationSchema(key: string)
    ensures InSchema(RegistrationSchema, key) <==> key in {"email", "password", "firstName", "lastName"}
  {
    assert RegistrationSchema[0].key == "email" && RegistrationSchema[1].key == "password";
    assert RegistrationSchema[2].key == "firstName" && RegistrationSchema[3].key == "lastName";
  }

  /** For a schema of four keys, every key passing is the four keys passing one by one. */
  lemma FourKeysOk(schema: seq<KeyRules>, body: Entries, isEmail: string -> bool)
    requires |schema| == 4
    ensures (forall i :: 0 <= i < |schema| ==> KeyOk(schema[i], Lookup(body, schema[i].key), isEmail)) <==>
              && KeyOk(schema[0], Lookup(body, schema[0].key), isEmail)
              && KeyOk(schema[1], Lookup(body, schema[1].key), isEmail)
              && KeyOk(schema[2], Lookup(body, schema[2].key), isEmail)
              && KeyOk(schema[3], Lookup(body, schema[3].key), isEmail)
  {
  }

  /** The registration schema's keys produce no error exactly when the fields are acceptable. */
  lemma RegistrationFieldErrorsEmptyIff(body: JsonObject, isEmail: string -> bool)
    ensures SchemaErrors(RegistrationSchema, body, isEmail) == [] <==> RegistrationFieldsOk(body, isEmail)
  {
    SchemaErrorsEmptyIff(RegistrationSchema, body, isEmail);
    FourKeysOk(RegistrationSchema, body, isEmail);
    KeyOkInBody(RegistrationSchema[0], body, isEmail);
    KeyOkInBody(RegistrationSchema[1], body, isEmail);
    KeyOkInBody(RegistrationSchema[2], body, isEmail);
    KeyOkInBody(RegistrationSchema[3], body, isEmail);
  }

  /** The registration schema collects no error exactly on the acceptable bodies. */
  lemma RegistrationErrorsEmptyIff(body: JsonObject, isEmail: string -> bool)
    ensures AllErrors(RegistrationSchema, body, isEmail) == [] <==> RegistrationAcceptable(body, isEmail)
  {
    var keys := {"email", "password", "firstName", "lastName"};
    RegistrationFieldErrorsEmptyIff(body, isEmail);
    forall key {
      InRegistrationSchema(key);
    }
    AllErrorsEmptyIff(RegistrationSchema, body, isEmail, keys, RegistrationFieldsOk(body, isEmail));
  }

  /**
   * validateRegistration (abortEarly: false): accepts exactly the bodies
   * with an email-format email, a password of at least 8 characters, two
   * alphanumeric names of 2 to 50 characters and no other key; otherwise
   * reports every error of every key.
   */
  function ValidateRegistration(body: JsonObject, isEmail: string -> bool): (r: Result<Registration, seq<Detail>>)
    ensures r.Success? <==> RegistrationAcceptable(body, isEmail)
    ensures r.Success? ==> r.value == Registration(StrOf(body, "email"), StrOf(body, "password"), StrOf(body, "firstName"), StrOf(body, "lastName"))
    ensures r.Success? ==> |r.value.password| >= 8
    ensures r.Failure? ==> r.error != [] && forall i, d :: 0 <= i < |RegistrationSchema| && d in KeyErrors(RegistrationSchema[i], Lookup(body, RegistrationSchema[i].key), isEmail) ==> d in r.error
  {
    var errors := AllErrors(RegistrationSchema, body, isEmail);
    RegistrationErrorsEmptyIff(body, isEmail);
    forall i | 0 <= i < |RegistrationSchema| {
      SchemaErrorsReportEveryKey(RegistrationSchema, body, isEmail, i);
    }
    if errors == [] then
      Success(Registration(StrOf(body, "email"), StrOf(body, "password"), StrOf(body, "firstName"), StrOf(body, "lastName")))
    else
      Failure(errors)
  }

  /** The bodies the login schema accepts: a present email-format email, a present non-empty password, nothing else. */
  ghost predicate LoginAcceptable(body: JsonObject, isEmail: string -> bool)
  {
    && FilledString(body, "email") && isEmail(StrOf(body, "email"))
    && FilledString(body, "password")
    && OnlyKeys(body, {"email", "password"})
  }

  lemma InLoginSchema(key: string)
    ensures InSchema(LoginSchema, key) <==> key in {"email", "password"}
  {
    assert LoginSchema[0].key == "email" && LoginSchema[1].key == "password";
  }

  /** The login schema collects no error exactly on the acceptable bodies. */
  lemma LoginErrorsEmptyIff(body: JsonObject, isEmail: string -> bool)
    ensures AllErrors(LoginSchema, body, isEmail) == [] <==> LoginAcceptable(body, isEmail)
  {
    SchemaErrorsEmptyIff(LoginSchema, body, isEmail);
    KeyOkInBody(LoginSchema[0], body, isEmail);
    KeyOkInBody(LoginSchema[1], body, isEmail);
    forall key {
      InLoginSchema(key);
    }
    AllErrorsEmptyIff(LoginSchema, body, isEmail, {"email", "password"},
                      FilledString(body, "email") && isEmail(StrOf(body, "email")) && FilledString(body, "password"));
  }

  /**
   * validateLogin (abortEarly by default): accepts exactly the bodies with an
   * email-format email and a non-empty password, of any length; otherwise
   * reports the first error only.
   */
  function ValidateLogin(body: JsonObject, isEmail: string -> bool): (r: Result<Credentials, Detail>)
    ensures r.Success? <==> LoginAcceptable(body, isEmail)
    ensures r.Success? ==> r.value == Credentials(StrOf(body, "email"), StrOf(body, "password"))
    ensures r.Failure? ==> AllErrors(LoginSchema, body, isEmail) != [] && r.error == AllErrors(LoginSchema, body, isEmail)[0]
  {
    var errors := AllErrors(LoginSchema, body, isEmail);
    LoginErrorsEmptyIff(body, isEmail);
    if errors == [] then Success(Credentials(StrOf(body, "email"), StrOf(body, "password")))
    else Failure(errors[0])
  }

  /** Decimal digits of a natural number. */
  function NatText(n: nat): string
  {
    if n < 10 then [(('0' as int) + n) as char]
    else NatText(n / 10) + [(('0' as int) + n % 10) as char]
  }

  /** Joi's default message for one detail. */
  function Message(d: Detail): string
  {
    var name := "\"" + d.key + "\"";
    match d.rule
    case Required => name + " is required"
    case NotAString => name + " must be a string"
    case Empty => name + " is not allowed to be empty"
    case EmailFormat => name + " must be a valid email"
    case Alphanum => name + " must only contain alpha-numeric characters"
    case MinLength(n) => name + " length must be at least " + NatText(n) + " characters long"
    case MaxLength(n) => name + " length must be less than or equal to " + NatText(n) + " characters long"
    case NotAllowed => name + " is not allowed"
  }

  /** Every message starts with the offending key in double quotes, as Joi labels it. */
  lemma MessageNamesKey(d: Detail)
    ensures var prefix := "\"" + d.key + "\"";
            |prefix| <= |Message(d)| && Message(d)[..|prefix|] == prefix
  {
  }

  /** `error.details.map(d => d.message)`: one message per detail, in order. */
  function Messages(details: seq<Detail>): (r: seq<string>)
    ensures |r| == |details| && forall i :: 0 <= i < |r| ==> r[i] == Message(details[i])
  {
    seq(|details|, i requires 0 <= i < |details| => Message(details[i]))
  }

  /** The login schema sets no minimum on the password: a one-character password passes. */
  lemma LoginPasswordHasNoMinimum(email: string, isEmail: string -> bool)
    requires email != "" && isEmail(email)
    ensures ValidateLogin([("email", Str(email)), ("password", Str("x"))], isEmail) == Success(Credentials(email, "x"))
  {
    var body: JsonObject := [("email", Str(email)), ("password", Str("x"))];
    assert Lookup(body, "email") == Some(Str(email));
    assert Lookup(body, "password") == Some(Str("x"));
    assert OnlyKeys(body, {"email", "password"});
    assert LoginAcceptable(body, isEmail);
  }

  /** A registration password of 7 characters is refused with Joi's min-length message. */
  lemma ShortPasswordRefused(email: string, password: string, isEmail: string -> bool)
    requires email != "" && isEmail(email) && 0 < |password| < 8
    ensures var r := ValidateRegistration([("email", Str(email)), ("password", Str(password)), ("firstName", Str("Amy")), ("lastName", Str("Lee"))], isEmail);
            r.Failure? && Detail("password", MinLength(8)) in r.error
  {
    var body: JsonObject := [("email", Str(email)), ("password", Str(password)), ("firstName", Str("Amy")), ("lastName", Str("Lee"))];
    assert Lookup(body, "password") == Some(Str(password));
    assert Detail("password", MinLength(8)) in KeyErrors(RegistrationSchema[1], Lookup(body, "password"), isEmail);
  }
}
