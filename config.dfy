/**
 * The backend configuration (backend/src/config.js), read from the process
 * environment, which is a map from variable names to strings. JavaScript's
 * `process.env.X || d` falls back to `d` both when `X` is unset and when it is
 * the empty string; `Given` captures that.
 */
module Config {
  import opened Common
  import opened Text
  import JsValues

  type Env = map<string, string>

  /** `process.env[name]` is truthy. */
  predicate Given(env: Env, name: string) { name in env && env[name] != "" }

  /** `required(name)`: the variable's value, or the error thrown when it is unset or empty. */
  function Required(env: Env, name: string): (r: Result<string, string>)
    ensures r.Ok? <==> Given(env, name)
    ensures r.Ok? ==> r.value == env[name]
    ensures r.Err? ==> r.error == "Missing env: " + name
  {
    if Given(env, name) then Ok(env[name]) else Err("Missing env: " + name)
  }

  const DefaultCorsOrigins: seq<string> := ["http://localhost:5173", "http://localhost:5174"]

  /** One comma-separated entry after `trim()` and `replace(/\/+$/, '')`. */
  function CleanOrigin(entry: string): string {
    StripTrailing(Trim(entry), '/')
  }

  /** `.map(trim).map(stripSlashes).filter(Boolean)` over the entries. */
  function CleanOrigins(entries: seq<string>): (r: seq<string>)
    ensures |r| <= |entries|
    ensures forall i :: 0 <= i < |r| ==> r[i] != "" && r[i][|r[i]| - 1] != '/'
    decreases |entries|
  {
    if |entries| == 0 then []
    else
      var o := CleanOrigin(entries[0]);
      var rest := CleanOrigins(entries[1..]);
      if o == "" then rest else [o] + rest
  }

  /** The kept origins are exactly the non-empty cleaned entries. */
  lemma {:induction false} CleanOriginsMembers(entries: seq<string>)
    ensures forall o :: o in CleanOrigins(entries) ==> exists e :: e in entries && CleanOrigin(e) == o
    ensures forall e :: e in entries && CleanOrigin(e) != "" ==> CleanOrigin(e) in CleanOrigins(entries)
    decreases |entries|
  {
    if |entries| > 0 {
      CleanOriginsMembers(entries[1..]);
      assert entries == [entries[0]] + entries[1..];
    }
  }

  /** `parseCorsOrigins()` with `CORS_ORIGIN` given as `raw`. */
  function ParseCorsOrigins(raw: Option<string>): (r: seq<string>)
    ensures (raw.None? || raw.value == "") ==> r == DefaultCorsOrigins
    ensures forall o :: o in r ==> o != "" && o[|o| - 1] != '/'
    ensures raw.Some? && raw.value != "" ==>
      forall e :: e in Split(raw.value, ',') && CleanOrigin(e) != "" ==> CleanOrigin(e) in r
    ensures raw.Some? && raw.value != "" ==>
      forall o :: o in r ==> exists e :: e in Split(raw.value, ',') && CleanOrigin(e) == o
  {
    if raw.None? || raw.value == "" then DefaultCorsOrigins
    else
      CleanOriginsMembers(Split(raw.value, ','));
      CleanOrigins(Split(raw.value, ','))
  }

  /** An origin that is already clean: no comma, not empty, no white space at either end,
      no trailing '/'. */
  predicate CleanOriginText(o: string) {
    o != "" && ',' !in o && !IsSpace(o[0]) && !IsSpace(o[|o| - 1]) && o[|o| - 1] != '/'
  }

  /** Writing clean origins comma-separated into CORS_ORIGIN gives exactly those origins back. */
  lemma {:induction false} CorsOriginsRoundTrip(origins: seq<string>)
    requires |origins| >= 1
    requires forall i :: 0 <= i < |origins| ==> CleanOriginText(origins[i])
    ensures ParseCorsOrigins(Some(Join(origins, ','))) == origins
  {
    SplitJoin(origins, ',');
    CleanOriginsOfClean(origins);
  }

  lemma {:induction false} CleanOriginsOfClean(origins: seq<string>)
    requires forall i :: 0 <= i < |origins| ==> CleanOriginText(origins[i])
    ensures CleanOrigins(origins) == origins
    decreases |origins|
  {
    if |origins| > 0 {
      var o := origins[0];
      CleanOriginOfClean(o);
      CleanOriginsOfClean(origins[1..]);
      assert CleanOrigins(origins) == [o] + CleanOrigins(origins[1..]);
      assert origins == [o] + origins[1..];
    }
  }

  lemma CleanOriginOfClean(o: string)
    requires CleanOriginText(o)
    ensures CleanOrigin(o) == o
  {
    TrimOfTrimmed(o);
  }

  datatype Smtp = Smtp(host: string, port: Option<Option<int>>, user: string, pass: string)

  /** The exported configuration object. `port` is `None` when `Number` gives NaN; `smtp.port`
      is `None` for null and `Some(None)` for NaN. */
  datatype Settings = Settings(
    port: Option<int>,
    databaseUrl: string,
    corsOrigin: seq<string>,
    jwtSecret: string,
    jwtExpiresIn: string,
    mailFrom: string,
    smtp: Smtp)

  function Lookup(env: Env, name: string): Option<string> {
    if name in env then Some(env[name]) else None
  }

  /** Building `config`: `required` throws for DATABASE_URL before it is asked about JWT_SECRET. */
  function LoadConfig(env: Env): (r: Result<Settings, string>)
    ensures r.Ok? <==> Given(env, "DATABASE_URL") && Given(env, "JWT_SECRET")
    ensures !Given(env, "DATABASE_URL") ==> r == Err("Missing env: DATABASE_URL")
    ensures Given(env, "DATABASE_URL") && !Given(env, "JWT_SECRET") ==> r == Err("Missing env: JWT_SECRET")
    ensures r.Ok? ==> r.value.databaseUrl == env["DATABASE_URL"] && r.value.jwtSecret == env["JWT_SECRET"]
    ensures r.Ok? && !Given(env, "PORT") ==> r.value.port == Some(4000)
    ensures r.Ok? && !Given(env, "JWT_EXPIRES_IN") ==> r.value.jwtExpiresIn == "7d"
    ensures r.Ok? && Given(env, "JWT_EXPIRES_IN") ==> r.value.jwtExpiresIn == env["JWT_EXPIRES_IN"]
    ensures r.Ok? ==> forall i :: 0 <= i < |r.value.smtp.pass| ==> !IsSpace(r.value.smtp.pass[i])
    ensures r.Ok? ==> r.value.corsOrigin == ParseCorsOrigins(Lookup(env, "CORS_ORIGIN"))
    ensures r.Ok? ==> r.value.mailFrom != ""
  {
    assert "Missing env: " + "DATABASE_URL" == "Missing env: DATABASE_URL";
    assert "Missing env: " + "JWT_SECRET" == "Missing env: JWT_SECRET";
    var port := if Given(env, "PORT") then JsValues.StringToNumber(env["PORT"]) else Some(4000);
    match Required(env, "DATABASE_URL")
    case Err(e) => Err(e)
    case Ok(databaseUrl) =>
      var corsOrigin := ParseCorsOrigins(Lookup(env, "CORS_ORIGIN"));
      match Required(env, "JWT_SECRET")
      case Err(e) => Err(e)
      case Ok(jwtSecret) =>
        var smtpUser := if Given(env, "SMTP_USER") then Trim(env["SMTP_USER"]) else "";
        var mailFrom :=
          if Given(env, "MAIL_FROM") then env["MAIL_FROM"]
          else if smtpUser != "" then smtpUser
          else "no-reply@mertflix.local";
        Ok(Settings(
          port,
          databaseUrl,
          corsOrigin,
          jwtSecret,
          if Given(env, "JWT_EXPIRES_IN") then env["JWT_EXPIRES_IN"] else "7d",
          mailFrom,
          Smtp(
            if Given(env, "SMTP_HOST") then Trim(env["SMTP_HOST"]) else "",
            if Given(env, "SMTP_PORT") then Some(JsValues.StringToNumber(env["SMTP_PORT"])) else None,
            smtpUser,
            if Given(env, "SMTP_PASS") then RemoveSpaces(env["SMTP_PASS"]) else "")))
  }
}
