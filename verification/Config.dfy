/** Persona files: reading the tree of a document into a configuration, validating it, and
    the lookups that rely on it. */
module Config {
  import opened Prelude
  import opened Order
  import opened TomlTree
  import opened TomlDocument
  import opened TomlFinite
  import opened Objects
  import Numerals

  // ----- the library -----

  datatype Url = Url(scheme: string, host: string, path: string, fragment: string)

  /** The library calls the loader makes; instants and durations are in nanoseconds. */
  datatype Library = Library(
    parseUrl: string -> Option<Url>,
    parseDuration: string -> Option<int>,
    parseTime: string -> Option<int>)

  // ----- the configuration -----

  type Table = map<string, Tree>

  datatype Client = Client(id: string, secret: string, redirectURIs: seq<string>)

  datatype Persona = Persona(name: string, subject: string, email: string, emailVerified: bool,
                             groups: seq<string>, claims: Table)

  datatype Config = Config(issuer: string, seed: string, algorithm: string, rsaKeyFile: string,
                           ttl: int, issuedAt: Option<int>, clients: seq<Client>, personas: seq<Persona>)

  const DEFAULT_ALGORITHM := "EdDSA"
  const DEFAULT_TTL: int := 3_600_000_000_000

  const RESERVED_CLAIMS: set<string> :=
    {"iss", "sub", "aud", "exp", "iat", "nonce", "jti", "auth_time", "azp", "client_id", "scope", "token_use"}

  // ----- errors -----

  datatype Where = TopLevel | Tokens | ClientAt(i: nat) | PersonaAt(i: nat)

  /** A type error that lets reading go on. */
  datatype Problem =
    | UnknownKey(place: Where, key: string)
    | NotString(key: string) | NotBoolean(key: string)
    | NotStrings(key: string) | HoldsNonString(key: string)

  datatype Invalid =
    | IssuerMissing | IssuerNotUrl | IssuerSlash | SeedMissing
    | KeyFileUnused | KeyFileMissing | UnsupportedAlgorithm
    | NoClients | ClientIdMissing(i: nat) | ClientTwice(id: string) | NoRedirects(id: string)
    | RedirectNotAbsolute(id: string, uri: string) | RedirectFragment(id: string, uri: string)
    | NoPersonas | NameMissing(i: nat) | SubjectMissing(name: string)
    | NameTwice(name: string) | SubjectTwice(subject: string)
    | ReservedClaim(name: string, claim: string) | BadClaim(name: string, claim: string)

  datatype Error =
    | Syntax(kind: Kind)
    | TokensNotTable | BadTtl(text: string) | BadIssuedAt(text: string)
    | NotTables(key: string) | ClaimsNotTable(i: nat)
    | Decode(problem: Problem)
    | Validation(reason: Invalid)

  // ----- what reading means -----

  function StrAt(m: Table, key: string, def: string): string {
    if key in m && m[key].Leaf? && m[key].x.Str? then m[key].x.s else def
  }

  function StrProblem(m: Table, key: string): seq<Problem> {
    if key in m && !(m[key].Leaf? && m[key].x.Str?) then [NotString(key)] else []
  }

  function BoolAt(m: Table, key: string, def: bool): bool {
    if key in m && m[key].Leaf? && m[key].x.Bool? then m[key].x.b else def
  }

  function BoolProblem(m: Table, key: string): seq<Problem> {
    if key in m && !(m[key].Leaf? && m[key].x.Bool?) then [NotBoolean(key)] else []
  }

  predicate AllStrings(xs: seq<Tree>) {
    forall i :: 0 <= i < |xs| ==> xs[i].Leaf? && xs[i].x.Str?
  }

  function StringsOf(xs: seq<Tree>): (r: seq<string>)
    requires AllStrings(xs)
  {
    seq(|xs|, i requires 0 <= i < |xs| => xs[i].x.s)
  }

  function StrsAt(m: Table, key: string): seq<string> {
    if key in m && m[key].Arr? && AllStrings(m[key].elems) then StringsOf(m[key].elems) else []
  }

  function StrsProblem(m: Table, key: string): seq<Problem> {
    if key !in m then []
    else if !m[key].Arr? then [NotStrings(key)]
    else if !AllStrings(m[key].elems) then [HoldsNonString(key)]
    else []
  }

  /** An unknown key is reported by the least one in byte order. */
  ghost function UnknownProblem(m: Table, place: Where, keys: seq<string>): seq<Problem> {
    var unknown := m.Keys - Elements(keys);
    if unknown == {} then [] else NoElements(SortedKeys(unknown)); [UnknownKey(place, SortedKeys(unknown)[0])]
  }

  predicate AreTables(xs: seq<Tree>) {
    forall i :: 0 <= i < |xs| ==> xs[i].Map?
  }

  predicate IsTables(m: Table, key: string) {
    key in m ==> m[key].Arr? && AreTables(m[key].elems)
  }

  function TablesAt(m: Table, key: string): (r: seq<Table>)
    requires IsTables(m, key)
  {
    if key in m then
      var xs := m[key].elems;
      seq(|xs|, i requires 0 <= i < |xs| => xs[i].entries)
    else []
  }

  const TOP_KEYS := ["issuer", "seed", "tokens", "clients", "personas"]
  const TOKEN_KEYS := ["algorithm", "ttl", "issued_at", "rsa_key_file"]
  const CLIENT_KEYS := ["client_id", "client_secret", "redirect_uris"]
  const PERSONA_KEYS := ["name", "subject", "email", "email_verified", "groups", "claims"]

  function ClientOf(m: Table): Client {
    Client(StrAt(m, "client_id", ""), StrAt(m, "client_secret", ""), StrsAt(m, "redirect_uris"))
  }

  ghost function ClientProblems(m: Table, i: nat): seq<Problem> {
    UnknownProblem(m, ClientAt(i), CLIENT_KEYS)
    + StrProblem(m, "client_id") + StrProblem(m, "client_secret") + StrsProblem(m, "redirect_uris")
  }

  function PersonaOf(m: Table): Persona {
    Persona(StrAt(m, "name", ""), StrAt(m, "subject", ""), StrAt(m, "email", ""),
            BoolAt(m, "email_verified", false), StrsAt(m, "groups"),
            if "claims" in m && m["claims"].Map? then m["claims"].entries else map[])
  }

  ghost function PersonaProblems(m: Table, i: nat): seq<Problem> {
    UnknownProblem(m, PersonaAt(i), PERSONA_KEYS)
    + StrProblem(m, "name") + StrProblem(m, "subject") + StrProblem(m, "email")
    + BoolProblem(m, "email_verified") + StrsProblem(m, "groups")
  }

  function TokensOf(m: Table): Table {
    if "tokens" in m && m["tokens"].Map? then m["tokens"].entries else map[]
  }

  ghost function TokensProblems(m: Table): seq<Problem> {
    if "tokens" !in m then [] else TokenProblems(TokensOf(m))
  }

  ghost function TokenProblems(tt: Table): seq<Problem> {
    UnknownProblem(tt, Tokens, TOKEN_KEYS)
    + StrProblem(tt, "algorithm") + StrProblem(tt, "rsa_key_file") + StrProblem(tt, "ttl") + StrProblem(tt, "issued_at")
  }

  ghost function ClientsProblems(ms: seq<Table>): seq<Problem> {
    if ms == [] then [] else ClientsProblems(ms[..|ms| - 1]) + ClientProblems(ms[|ms| - 1], |ms| - 1)
  }

  ghost function PersonasProblems(ms: seq<Table>): seq<Problem> {
    if ms == [] then [] else PersonasProblems(ms[..|ms| - 1]) + PersonaProblems(ms[|ms| - 1], |ms| - 1)
  }

  /** Every type error of the tree, in the order reading meets them. */
  ghost function Problems(m: Table): seq<Problem>
    requires IsTables(m, "clients") && IsTables(m, "personas")
  {
    UnknownProblem(m, TopLevel, TOP_KEYS) + StrProblem(m, "issuer") + StrProblem(m, "seed")
    + TokensProblems(m) + ClientsProblems(TablesAt(m, "clients")) + PersonasProblems(TablesAt(m, "personas"))
  }

  predicate GoodTtl(lib: Library, s: string) {
    s == "" || (lib.parseDuration(s).Some? && lib.parseDuration(s).value > 0)
  }

  predicate GoodTime(lib: Library, s: string) {
    s == "" || lib.parseTime(s).Some?
  }

  /** The first persona whose claims are no table. */
  function BadClaims(ms: seq<Table>): (r: Option<nat>)
    ensures r.Some? ==> r.value < |ms|
  {
    if ms == [] then None
    else
      var front := BadClaims(ms[..|ms| - 1]);
      if front.Some? then front
      else if "claims" in ms[|ms| - 1] && !ms[|ms| - 1]["claims"].Map? then Some(|ms| - 1)
      else None
  }

  /** The error that ends reading at once, if there is one; it is reported even when a type
      error came before it. */
  function Immediate(m: Table, lib: Library): Option<Error> {
    var tt := TokensOf(m);
    if "tokens" in m && !m["tokens"].Map? then Some(TokensNotTable)
    else if !GoodTtl(lib, StrAt(tt, "ttl", "")) then Some(BadTtl(StrAt(tt, "ttl", "")))
    else if !GoodTime(lib, StrAt(tt, "issued_at", "")) then Some(BadIssuedAt(StrAt(tt, "issued_at", "")))
    else if !IsTables(m, "clients") then Some(NotTables("clients"))
    else if !IsTables(m, "personas") then Some(NotTables("personas"))
    else
      match BadClaims(TablesAt(m, "personas"))
      case Some(i) => Some(ClaimsNotTable(i))
      case None => None
  }

  function Clients(ms: seq<Table>): seq<Client> {
    seq(|ms|, i requires 0 <= i < |ms| => ClientOf(ms[i]))
  }

  function Personas(ms: seq<Table>): seq<Persona> {
    seq(|ms|, i requires 0 <= i < |ms| => PersonaOf(ms[i]))
  }

  /** Algorithm, key file, lifetime and frozen time. */
  datatype TokenSettings = TokenSettings(algorithm: string, rsaKeyFile: string, ttl: int, issuedAt: Option<int>)

  function SettingsOf(tt: Table, lib: Library): TokenSettings
    requires GoodTtl(lib, StrAt(tt, "ttl", "")) && GoodTime(lib, StrAt(tt, "issued_at", ""))
  {
    var ttl, at := StrAt(tt, "ttl", ""), StrAt(tt, "issued_at", "");
    TokenSettings(StrAt(tt, "algorithm", DEFAULT_ALGORITHM), StrAt(tt, "rsa_key_file", ""),
                  if ttl == "" then DEFAULT_TTL else lib.parseDuration(ttl).value,
                  if at == "" then None else lib.parseTime(at))
  }

  /** The configuration a tree describes. */
  function Read(m: Table, lib: Library): Config
    requires Immediate(m, lib).None?
  {
    var t := SettingsOf(TokensOf(m), lib);
    Config(StrAt(m, "issuer", ""), StrAt(m, "seed", ""), t.algorithm, t.rsaKeyFile, t.ttl, t.issuedAt,
           Clients(TablesAt(m, "clients")), Personas(TablesAt(m, "personas")))
  }

  // ----- what a valid configuration is -----

  predicate GoodIssuer(lib: Library, s: string) {
    lib.parseUrl(s).Some? &&
    var u := lib.parseUrl(s).value;
    u.scheme in {"http", "https"} && u.host != ""
  }

  predicate EndsWithSlash(s: string) {
    s != [] && s[|s| - 1] == '/'
  }

  predicate IsAbsolute(lib: Library, s: string) {
    lib.parseUrl(s).Some? && lib.parseUrl(s).value.scheme != ""
  }

  predicate NoFragment(lib: Library, s: string) {
    lib.parseUrl(s).Some? ==> lib.parseUrl(s).value.fragment == ""
  }

  predicate ValidRedirect(lib: Library, s: string) {
    IsAbsolute(lib, s) && NoFragment(lib, s)
  }

  predicate ValidClient(lib: Library, c: Client) {
    c.id != "" && c.redirectURIs != [] && forall r :: r in c.redirectURIs ==> ValidRedirect(lib, r)
  }

  /** A claim is a scalar or a flat array of scalars. */
  predicate FlatClaim(v: Tree) {
    v.Leaf? || (v.Arr? && forall i :: 0 <= i < |v.elems| ==> v.elems[i].Leaf?)
  }

  predicate CheckedClaim(k: string, v: Tree) {
    k !in RESERVED_CLAIMS && FlatClaim(v)
  }

  predicate CheckedPersona(p: Persona) {
    p.name != "" && p.subject != "" && forall k :: k in p.claims ==> CheckedClaim(k, p.claims[k])
  }

  /** What validation accepts. */
  predicate Checked(c: Config, lib: Library) {
    && c.issuer != "" && GoodIssuer(lib, c.issuer) && !EndsWithSlash(lib.parseUrl(c.issuer).value.path)
    && c.seed != ""
    && ((c.algorithm == "EdDSA" && c.rsaKeyFile == "") || (c.algorithm == "RS256" && c.rsaKeyFile != ""))
    && c.clients != [] && c.personas != []
    && (forall i :: 0 <= i < |c.clients| ==> ValidClient(lib, c.clients[i]))
    && (forall i, j :: 0 <= i < j < |c.clients| ==> c.clients[i].id != c.clients[j].id)
    && (forall i :: 0 <= i < |c.personas| ==> CheckedPersona(c.personas[i]))
    && (forall i, j :: 0 <= i < j < |c.personas| ==> c.personas[i].name != c.personas[j].name)
    && (forall i, j :: 0 <= i < j < |c.personas| ==> c.personas[i].subject != c.personas[j].subject)
  }

  /** Every float among the claims is finite: not checked by validation, but true of every
      claim that comes out of a document. */
  predicate FiniteClaims(p: Persona) {
    forall k :: k in p.claims ==> Finite(p.claims[k])
  }

  predicate ValidPersona(p: Persona) {
    CheckedPersona(p) && FiniteClaims(p)
  }

  predicate ValidConfig(c: Config, lib: Library) {
    Checked(c, lib) && forall i :: 0 <= i < |c.personas| ==> FiniteClaims(c.personas[i])
  }

  // ----- which error validation reports -----

  /** The checks before the entries are looked at. */
  predicate HeadFine(c: Config, lib: Library) {
    && c.issuer != "" && GoodIssuer(lib, c.issuer) && !EndsWithSlash(lib.parseUrl(c.issuer).value.path)
    && c.seed != ""
    && ((c.algorithm == "EdDSA" && c.rsaKeyFile == "") || (c.algorithm == "RS256" && c.rsaKeyFile != ""))
    && c.clients != []
  }

  predicate HeadReports(c: Config, lib: Library, e: Invalid) {
    if c.issuer == "" then e == IssuerMissing
    else if !GoodIssuer(lib, c.issuer) then e == IssuerNotUrl
    else if EndsWithSlash(lib.parseUrl(c.issuer).value.path) then e == IssuerSlash
    else if c.seed == "" then e == SeedMissing
    else if c.algorithm == "EdDSA" && c.rsaKeyFile != "" then e == KeyFileUnused
    else if c.algorithm == "RS256" && c.rsaKeyFile == "" then e == KeyFileMissing
    else if c.algorithm != "EdDSA" && c.algorithm != "RS256" then e == UnsupportedAlgorithm
    else e == NoClients
  }

  predicate ClientFine(c: Config, lib: Library, i: nat)
    requires i < |c.clients|
  {
    ValidClient(lib, c.clients[i]) && forall j :: 0 <= j < i ==> c.clients[j].id != c.clients[i].id
  }

  /** What is reported of client i: its first failing check, and of its redirect URIs the first
      that fails. */
  ghost predicate ClientReports(c: Config, lib: Library, i: nat, e: Invalid)
    requires i < |c.clients|
  {
    var cl := c.clients[i];
    var uris := cl.redirectURIs;
    if cl.id == "" then e == ClientIdMissing(i)
    else if exists j :: 0 <= j < i && c.clients[j].id == cl.id then e == ClientTwice(cl.id)
    else if uris == [] then e == NoRedirects(cl.id)
    else RedirectReports(lib, cl.id, uris, e)
  }

  ghost predicate RedirectReports(lib: Library, id: string, uris: seq<string>, e: Invalid) {
    exists k :: 0 <= k < |uris| && FirstBad(lib, uris, k)
                && e == if IsAbsolute(lib, uris[k]) then RedirectFragment(id, uris[k]) else RedirectNotAbsolute(id, uris[k])
  }

  predicate FirstBad(lib: Library, uris: seq<string>, k: nat)
    requires k < |uris|
  {
    !ValidRedirect(lib, uris[k]) && forall j :: 0 <= j < k ==> ValidRedirect(lib, uris[j])
  }

  predicate PersonaFine(c: Config, i: nat)
    requires i < |c.personas|
  {
    && CheckedPersona(c.personas[i])
    && (forall j :: 0 <= j < i ==> c.personas[j].name != c.personas[i].name)
    && (forall j :: 0 <= j < i ==> c.personas[j].subject != c.personas[i].subject)
  }

  /** What is reported of persona i: its first failing check; of its claims, which are met in
      any order, one that fails. */
  ghost predicate PersonaReports(c: Config, i: nat, e: Invalid)
    requires i < |c.personas|
  {
    var p := c.personas[i];
    if p.name == "" then e == NameMissing(i)
    else if p.subject == "" then e == SubjectMissing(p.name)
    else if exists j :: 0 <= j < i && c.personas[j].name == p.name then e == NameTwice(p.name)
    else if exists j :: 0 <= j < i && c.personas[j].subject == p.subject then e == SubjectTwice(p.subject)
    else exists k :: k in p.claims && !CheckedClaim(k, p.claims[k])
                     && e == if k in RESERVED_CLAIMS then ReservedClaim(p.name, k) else BadClaim(p.name, k)
  }

  /** The error of an invalid configuration: the checks on its head come first, then the
      clients in order, then the personas in order; within each the first failing check. */
  ghost predicate Reported(c: Config, lib: Library, e: Invalid) {
    if !HeadFine(c, lib) then HeadReports(c, lib, e)
    else if exists i :: 0 <= i < |c.clients| && !ClientFine(c, lib, i) then
      exists i :: 0 <= i < |c.clients| && !ClientFine(c, lib, i) && ClientReports(c, lib, i, e)
                  && forall j :: 0 <= j < i ==> ClientFine(c, lib, j)
    else if c.personas == [] then e == NoPersonas
    else
      exists i :: 0 <= i < |c.personas| && !PersonaFine(c, i) && PersonaReports(c, i, e)
                  && forall j :: 0 <= j < i ==> PersonaFine(c, j)
  }

  /** What a validation error says is true of the configuration. */
  ghost predicate Genuine(c: Config, lib: Library, e: Invalid) {
    match e
    case IssuerMissing => c.issuer == ""
    case IssuerNotUrl => !GoodIssuer(lib, c.issuer)
    case IssuerSlash => GoodIssuer(lib, c.issuer) && EndsWithSlash(lib.parseUrl(c.issuer).value.path)
    case SeedMissing => c.seed == ""
    case KeyFileUnused => c.algorithm == "EdDSA" && c.rsaKeyFile != ""
    case KeyFileMissing => c.algorithm == "RS256" && c.rsaKeyFile == ""
    case UnsupportedAlgorithm => c.algorithm != "EdDSA" && c.algorithm != "RS256"
    case NoClients => c.clients == []
    case ClientIdMissing(i) => i < |c.clients| && c.clients[i].id == ""
    case ClientTwice(id) => exists i, j :: 0 <= i < j < |c.clients| && c.clients[i].id == c.clients[j].id == id
    case NoRedirects(id) => exists cl :: cl in c.clients && cl.id == id && cl.redirectURIs == []
    case RedirectNotAbsolute(id, uri) =>
      exists cl :: cl in c.clients && cl.id == id && uri in cl.redirectURIs && !IsAbsolute(lib, uri)
    case RedirectFragment(id, uri) =>
      exists cl :: cl in c.clients && cl.id == id && uri in cl.redirectURIs
                   && IsAbsolute(lib, uri) && !NoFragment(lib, uri)
    case NoPersonas => c.personas == []
    case NameMissing(i) => i < |c.personas| && c.personas[i].name == ""
    case SubjectMissing(name) => exists p :: p in c.personas && p.name == name && p.subject == ""
    case NameTwice(name) => exists i, j :: 0 <= i < j < |c.personas| && c.personas[i].name == c.personas[j].name == name
    case SubjectTwice(sub) =>
      exists i, j :: 0 <= i < j < |c.personas| && c.personas[i].subject == c.personas[j].subject == sub
    case ReservedClaim(name, k) => k in RESERVED_CLAIMS && exists p :: p in c.personas && p.name == name && k in p.claims
    case BadClaim(name, k) => exists p :: p in c.personas && p.name == name && k in p.claims && !FlatClaim(p.claims[k])
  }

  // ----- the decoder -----

  /** The first type error sticks; the others are forgotten. */
  class Decoder {
    var err: Option<Problem>
    ghost var log: seq<Problem>

    ghost predicate Valid()
      reads this
    {
      err == if log == [] then None else Some(log[0])
    }

    constructor ()
      ensures Valid() && log == []
    {
      err, log := None, [];
    }

    method Fail(p: Problem)
      requires Valid()
      modifies this
      ensures Valid() && log == old(log) + [p]
    {
      if err.None? {
        err := Some(p);
      }
      log := log + [p];
    }

    method Str(m: Table, key: string, def: string) returns (s: string)
      requires Valid()
      modifies this
      ensures Valid() && s == StrAt(m, key, def) && log == old(log) + StrProblem(m, key)
    {
      if key !in m { return def; }
      match m[key] {
        case Leaf(Str(v)) => return v;
        case _ =>
          Fail(NotString(key));
          return def;
      }
    }

    method Boolean(m: Table, key: string, def: bool) returns (b: bool)
      requires Valid()
      modifies this
      ensures Valid() && b == BoolAt(m, key, def) && log == old(log) + BoolProblem(m, key)
    {
      if key !in m { return def; }
      match m[key] {
        case Leaf(Bool(v)) => return v;
        case _ =>
          Fail(NotBoolean(key));
          return def;
      }
    }

    method Strs(m: Table, key: string) returns (out: seq<string>)
      requires Valid()
      modifies this
      ensures Valid() && out == StrsAt(m, key) && log == old(log) + StrsProblem(m, key)
    {
      if key !in m { return []; }
      if !m[key].Arr? {
        Fail(NotStrings(key));
        return [];
      }
      var arr := m[key].elems;
      out := [];
      for i := 0 to |arr|
        invariant Valid() && log == old(log)
        invariant AllStrings(arr[..i]) && out == StringsOf(arr[..i])
      {
        match arr[i] {
          case Leaf(Str(s)) => out := out + [s];
          case _ =>
            Fail(HoldsNonString(key));
            return [];
        }
      }
      assert arr[..|arr|] == arr;
    }

    /** Tables are demanded at once. */
    method Tables(m: Table, key: string) returns (r: Result<seq<Table>, Error>)
      ensures r == if IsTables(m, key) then Ok(TablesAt(m, key)) else Err(NotTables(key))
    {
      if key !in m { return Ok([]); }
      if !m[key].Arr? { return Err(NotTables(key)); }
      var arr := m[key].elems;
      var out: seq<Table> := [];
      for i := 0 to |arr|
        invariant AreTables(arr[..i]) && |out| == i
        invariant forall j :: 0 <= j < i ==> out[j] == arr[j].entries
      {
        if !arr[i].Map? { return Err(NotTables(key)); }
        out := out + [arr[i].entries];
      }
      assert arr[..|arr|] == arr;
      assert out == TablesAt(m, key);
      return Ok(out);
    }

    method Allow(m: Table, place: Where, keys: seq<string>)
      requires Valid()
      modifies this
      ensures Valid() && log == old(log) + UnknownProblem(m, place, keys)
    {
      var ks := KeysOf(m);
      var unknown := [];
      for i := 0 to |ks|
        invariant Distinct(unknown) && Elements(unknown) == Elements(ks[..i]) - Elements(keys)
      {
        assert ks[..i + 1] == ks[..i] + [ks[i]];
        assert Elements(ks[..i + 1]) == Elements(ks[..i]) + {ks[i]};
        if ks[i] !in keys {
          assert ks[i] !in unknown by { assert ks[i] !in Elements(unknown); }
          assert Elements(unknown + [ks[i]]) == Elements(unknown) + {ks[i]};
          unknown := unknown + [ks[i]];
        }
      }
      assert ks[..|ks|] == ks;
      NoElements(unknown);
      if |unknown| > 0 {
        SortCanonical(unknown);
        unknown := Sort(unknown);
        Fail(UnknownKey(place, unknown[0]));
      }
    }
  }

  // ----- loading -----

  lemma {:induction false} BadClaimsFirst(ms: seq<Table>, n: nat)
    requires n <= |ms| && BadClaims(ms[..n]).Some?
    ensures BadClaims(ms) == BadClaims(ms[..n])
    decreases |ms| - n
  {
    if n < |ms| {
      assert ms[..n + 1][..n] == ms[..n];
      BadClaimsFirst(ms, n + 1);
    } else {
      assert ms[..n] == ms;
    }
  }

  /** The branch of Load for a [tokens] table that is there. */
  method LoadTokens(d: Decoder, tt: Table, lib: Library) returns (r: Result<TokenSettings, Error>)
    requires d.Valid()
    modifies d
    ensures d.Valid() && (r.Ok? ==> d.log == old(d.log) + TokenProblems(tt))
    ensures r == if !GoodTtl(lib, StrAt(tt, "ttl", "")) then Err(BadTtl(StrAt(tt, "ttl", "")))
                 else if !GoodTime(lib, StrAt(tt, "issued_at", "")) then Err(BadIssuedAt(StrAt(tt, "issued_at", "")))
                 else Ok(SettingsOf(tt, lib))
  {
    hide UnknownProblem;
    hide StrProblem;
    hide StrAt;
    d.Allow(tt, Tokens, TOKEN_KEYS);
    var algorithm := d.Str(tt, "algorithm", DEFAULT_ALGORITHM);
    var rsaKeyFile := d.Str(tt, "rsa_key_file", "");
    var s := d.Str(tt, "ttl", "");
    var ttl := DEFAULT_TTL;
    if s != "" {
      var parsed := lib.parseDuration(s);
      if parsed.None? || parsed.value <= 0 { return Err(BadTtl(s)); }
      ttl := parsed.value;
    }
    s := d.Str(tt, "issued_at", "");
    var issuedAt := None;
    if s != "" {
      var parsed := lib.parseTime(s);
      if parsed.None? { return Err(BadIssuedAt(s)); }
      issuedAt := parsed;
    }
    return Ok(TokenSettings(algorithm, rsaKeyFile, ttl, issuedAt));
  }

  /** One step of the clients loop. */
  method LoadClient(d: Decoder, ct: Table, i: nat) returns (c: Client)
    requires d.Valid()
    modifies d
    ensures d.Valid() && d.log == old(d.log) + ClientProblems(ct, i) && c == ClientOf(ct)
  {
    hide UnknownProblem;
    hide StrProblem;
    hide StrsProblem;
    hide StrAt;
    hide StrsAt;
    d.Allow(ct, ClientAt(i), CLIENT_KEYS);
    var id := d.Str(ct, "client_id", "");
    var secret := d.Str(ct, "client_secret", "");
    var uris := d.Strs(ct, "redirect_uris");
    c := Client(id, secret, uris);
  }

  method LoadClients(d: Decoder, ms: seq<Table>) returns (clients: seq<Client>)
    requires d.Valid()
    modifies d
    ensures d.Valid() && d.log == old(d.log) + ClientsProblems(ms)
    ensures clients == Clients(ms)
  {
    hide ClientProblems;
    hide ClientOf;
    clients := [];
    for i := 0 to |ms|
      invariant d.Valid() && d.log == old(d.log) + ClientsProblems(ms[..i])
      invariant clients == Clients(ms[..i])
    {
      assert ms[..i + 1][..i] == ms[..i];
      var c := LoadClient(d, ms[i], i);
      clients := clients + [c];
    }
    assert ms[..|ms|] == ms;
  }

  /** One step of the personas loop; None when the claims are no table. */
  method LoadPersona(d: Decoder, pt: Table, i: nat) returns (r: Option<Persona>)
    requires d.Valid()
    modifies d
    ensures d.Valid() && d.log == old(d.log) + PersonaProblems(pt, i)
    ensures r == if "claims" in pt && !pt["claims"].Map? then None else Some(PersonaOf(pt))
  {
    hide UnknownProblem;
    hide StrProblem;
    hide StrsProblem;
    hide BoolProblem;
    hide StrAt;
    hide StrsAt;
    hide BoolAt;
    d.Allow(pt, PersonaAt(i), PERSONA_KEYS);
    var name := d.Str(pt, "name", "");
    var subject := d.Str(pt, "subject", "");
    var email := d.Str(pt, "email", "");
    var verified := d.Boolean(pt, "email_verified", false);
    var groups := d.Strs(pt, "groups");
    var claims: Table := map[];
    if "claims" in pt {
      if !pt["claims"].Map? { return None; }
      claims := pt["claims"].entries;
    }
    return Some(Persona(name, subject, email, verified, groups, claims));
  }

  method LoadPersonas(d: Decoder, ms: seq<Table>) returns (r: Result<seq<Persona>, Error>)
    requires d.Valid()
    modifies d
    ensures d.Valid() && (r.Ok? ==> d.log == old(d.log) + PersonasProblems(ms))
    ensures r == match BadClaims(ms) case Some(i) => Err(ClaimsNotTable(i)) case None => Ok(Personas(ms))
  {
    hide PersonaProblems;
    hide PersonaOf;
    var personas: seq<Persona> := [];
    for i := 0 to |ms|
      invariant d.Valid() && d.log == old(d.log) + PersonasProblems(ms[..i])
      invariant personas == Personas(ms[..i]) && BadClaims(ms[..i]).None?
    {
      assert ms[..i + 1][..i] == ms[..i];
      var p := LoadPersona(d, ms[i], i);
      if p.None? {
        BadClaimsFirst(ms, i + 1);
        return Err(ClaimsNotTable(i));
      }
      personas := personas + [p.value];
    }
    assert ms[..|ms|] == ms;
    return Ok(personas);
  }

  /** What loading a tree must return. Which invalid claim of a persona is named may depend on
      the order in which a map is walked; nothing else does. */
  ghost predicate LoadsAs(r: Result<Config, Error>, m: Table, lib: Library) {
    match Immediate(m, lib)
    case Some(e) => r == Err(e)
    case None =>
      if Problems(m) != [] then r == Err(Decode(Problems(m)[0]))
      else if Checked(Read(m, lib), lib) then r == Ok(Read(m, lib))
      else r.Err? && r.error.Validation? && Reported(Read(m, lib), lib, r.error.reason)
  }

  lemma NoTokens(m: Table, lib: Library)
    ensures var tt := TokensOf(m);
            "tokens" !in m ==>
              && GoodTtl(lib, StrAt(tt, "ttl", "")) && GoodTime(lib, StrAt(tt, "issued_at", ""))
              && SettingsOf(tt, lib) == TokenSettings(DEFAULT_ALGORITHM, "", DEFAULT_TTL, None)
  {
  }

  method LoadTree(m: Table, lib: Library) returns (r: Result<Config, Error>)
    ensures LoadsAs(r, m, lib)
  {
    hide Checked;
    hide Reported;
    hide UnknownProblem;
    hide StrProblem;
    hide StrAt;
    hide TokenProblems;
    hide SettingsOf;
    hide ClientsProblems;
    hide PersonasProblems;
    hide Clients;
    hide Personas;
    hide BadClaims;
    hide GoodTtl;
    hide GoodTime;
    var d := new Decoder();
    d.Allow(m, TopLevel, TOP_KEYS);
    var issuer := d.Str(m, "issuer", "");
    var seed := d.Str(m, "seed", "");
    var t := TokenSettings(DEFAULT_ALGORITHM, "", DEFAULT_TTL, None);
    NoTokens(m, lib);
    if "tokens" in m {
      if !m["tokens"].Map? { return Err(TokensNotTable); }
      var tokens := LoadTokens(d, m["tokens"].entries, lib);
      if tokens.Err? { return Err(tokens.error); }
      t := tokens.value;
    }
    var cts := d.Tables(m, "clients");
    if cts.Err? { return Err(cts.error); }
    var clients := LoadClients(d, cts.value);
    var pts := d.Tables(m, "personas");
    if pts.Err? { return Err(pts.error); }
    var personas := LoadPersonas(d, pts.value);
    if personas.Err? { return Err(personas.error); }
    if d.err.Some? { return Err(Decode(d.err.value)); }
    var c := Config(issuer, seed, t.algorithm, t.rsaKeyFile, t.ttl, t.issuedAt, clients, personas.value);
    assert c == Read(m, lib);
    var v := Validate(c, lib);
    match v {
      case Err(e) =>
        ReportedIsInvalid(c, lib, e);
        return Err(Validation(e));
      case Ok(_) => return Ok(c);
    }
  }

  method Load(src: string, lib: Library) returns (r: Result<Config, Error>)
    ensures match ParseDoc(src)
            case Err(k) => r == Err(Syntax(k))
            case Ok(tree) => tree.Map? && LoadsAs(r, tree.entries, lib)
  {
    match ParseDoc(src) {
      case Err(k) => return Err(Syntax(k));
      case Ok(tree) =>
        AcceptedTree(src, [], Bool(true));
        r := LoadTree(tree.entries, lib);
    }
  }

  /** A configuration that loads is valid, its claims are finite, and its tokens live for a
      positive time. */
  lemma LoadedIsValid(src: string, m: Table, c: Config, lib: Library)
    requires ParseDoc(src) == Ok(Map(m)) && LoadsAs(Ok(c), m, lib)
    ensures ValidConfig(c, lib) && c.ttl > 0
  {
    hide ParseDoc;
    hide Checked;
    hide Problems;
    hide FiniteClaims;
    ParsedFinite(src);
    forall i | 0 <= i < |c.personas| ensures FiniteClaims(c.personas[i]) {
      ReadFinite(m, lib, i);
    }
  }

  /** Reading takes the claims of a persona as they are in the tree. */
  lemma ReadFinite(m: Table, lib: Library, i: nat)
    requires Finite(Map(m)) && Immediate(m, lib).None? && i < |Read(m, lib).personas|
    ensures FiniteClaims(Read(m, lib).personas[i])
  {
    assert Finite(m["personas"]);
    ClaimsReadFinite(m["personas"].elems[i].entries);
  }

  lemma ClaimsReadFinite(pt: Table)
    requires Finite(Map(pt))
    ensures FiniteClaims(PersonaOf(pt))
  {
    hide Numerals.IsFloat;
    if "claims" in pt {
      assert Finite(pt["claims"]);
    }
  }

  // ----- validation -----

  /** An error is only reported of a configuration that is invalid. */
  lemma GenuineIsInvalid(c: Config, lib: Library, e: Invalid)
    requires Genuine(c, lib, e)
    ensures !Checked(c, lib)
  {
    if Checked(c, lib) {
      EntriesChecked(c, lib);
    }
  }

  lemma ReportedIsInvalid(c: Config, lib: Library, e: Invalid)
    requires Reported(c, lib, e)
    ensures !Checked(c, lib)
  {
    hide Reported;
    hide Genuine;
    hide Checked;
    ReportedIsGenuine(c, lib, e);
    GenuineIsInvalid(c, lib, e);
  }

  lemma EntriesChecked(c: Config, lib: Library)
    requires Checked(c, lib)
    ensures forall cl :: cl in c.clients ==>
              ValidClient(lib, cl) && forall uri :: uri in cl.redirectURIs ==> ValidRedirect(lib, uri)
    ensures forall p :: p in c.personas ==>
              CheckedPersona(p) && forall k :: k in p.claims ==> CheckedClaim(k, p.claims[k])
  {
  }

  lemma EntriesValid(c: Config, lib: Library)
    requires ValidConfig(c, lib)
    ensures forall cl :: cl in c.clients ==>
              ValidClient(lib, cl) && forall uri :: uri in cl.redirectURIs ==> ValidRedirect(lib, uri)
    ensures forall p :: p in c.personas ==> ValidPersona(p)
  {
    EntriesChecked(c, lib);
  }

  /** What is reported is true of the configuration. */
  lemma ReportedIsGenuine(c: Config, lib: Library, e: Invalid)
    requires Reported(c, lib, e)
    ensures Genuine(c, lib, e)
  {
    hide Genuine;
    hide ClientFine;
    hide ClientReports;
    hide PersonaFine;
    hide PersonaReports;
    hide HeadReports;
    if !HeadFine(c, lib) {
      HeadReportGenuine(c, lib, e);
    } else if exists i :: 0 <= i < |c.clients| && !ClientFine(c, lib, i) {
      hide HeadFine;
      var i :| 0 <= i < |c.clients| && !ClientFine(c, lib, i) && ClientReports(c, lib, i, e)
               && forall j :: 0 <= j < i ==> ClientFine(c, lib, j);
      ClientReportGenuine(c, lib, i, e);
    } else if c.personas == [] {
      NoPersonasGenuine(c, lib);
    } else {
      hide HeadFine;
      var i :| 0 <= i < |c.personas| && !PersonaFine(c, i) && PersonaReports(c, i, e)
               && forall j :: 0 <= j < i ==> PersonaFine(c, j);
      PersonaReportGenuine(c, lib, i, e);
    }
  }

  lemma HeadReportGenuine(c: Config, lib: Library, e: Invalid)
    requires !HeadFine(c, lib) && HeadReports(c, lib, e)
    ensures Genuine(c, lib, e)
  {
  }

  lemma NoPersonasGenuine(c: Config, lib: Library)
    requires c.personas == []
    ensures Genuine(c, lib, NoPersonas)
  {
  }

  lemma ClientReportGenuine(c: Config, lib: Library, i: nat, e: Invalid)
    requires i < |c.clients| && ClientReports(c, lib, i, e)
    ensures Genuine(c, lib, e)
  {
    var cl := c.clients[i];
    assert cl in c.clients;
  }

  lemma PersonaReportGenuine(c: Config, lib: Library, i: nat, e: Invalid)
    requires i < |c.personas| && PersonaReports(c, i, e)
    ensures Genuine(c, lib, e)
  {
    var p := c.personas[i];
    assert p in c.personas;
  }

  /** The report is unique, up to the choice among the bad claims of one persona. */
  lemma OneReport(c: Config, lib: Library, e: Invalid, f: Invalid)
    requires Reported(c, lib, e) && Reported(c, lib, f)
    ensures e == f || ((e.ReservedClaim? || e.BadClaim?) && (f.ReservedClaim? || f.BadClaim?) && e.name == f.name)
  {
    hide ClientFine;
    hide ClientReports;
    hide PersonaFine;
    hide PersonaReports;
    hide HeadFine;
    hide HeadReports;
    if !HeadFine(c, lib) {
      OneHeadReport(c, lib, e, f);
    } else if exists i :: 0 <= i < |c.clients| && !ClientFine(c, lib, i) {
      var i :| 0 <= i < |c.clients| && !ClientFine(c, lib, i) && ClientReports(c, lib, i, e)
               && forall j :: 0 <= j < i ==> ClientFine(c, lib, j);
      var j :| 0 <= j < |c.clients| && !ClientFine(c, lib, j) && ClientReports(c, lib, j, f)
               && forall k :: 0 <= k < j ==> ClientFine(c, lib, k);
      OneClientReport(c, lib, i, e, f);
    } else if c.personas != [] {
      var i :| 0 <= i < |c.personas| && !PersonaFine(c, i) && PersonaReports(c, i, e)
               && forall j :: 0 <= j < i ==> PersonaFine(c, j);
      var j :| 0 <= j < |c.personas| && !PersonaFine(c, j) && PersonaReports(c, j, f)
               && forall k :: 0 <= k < j ==> PersonaFine(c, k);
      OnePersonaReport(c, i, e, f);
    }
  }

  lemma OneHeadReport(c: Config, lib: Library, e: Invalid, f: Invalid)
    requires HeadReports(c, lib, e) && HeadReports(c, lib, f)
    ensures e == f
  {
  }

  lemma OneClientReport(c: Config, lib: Library, i: nat, e: Invalid, f: Invalid)
    requires i < |c.clients| && ClientReports(c, lib, i, e) && ClientReports(c, lib, i, f)
    ensures e == f
  {
    hide RedirectReports;
    var cl := c.clients[i];
    if RedirectReports(lib, cl.id, cl.redirectURIs, e) && RedirectReports(lib, cl.id, cl.redirectURIs, f) {
      OneRedirectReport(lib, cl.id, cl.redirectURIs, e, f);
    }
  }

  lemma OneRedirectReport(lib: Library, id: string, uris: seq<string>, e: Invalid, f: Invalid)
    requires RedirectReports(lib, id, uris, e) && RedirectReports(lib, id, uris, f)
    ensures e == f
  {
    hide IsAbsolute;
    hide FirstBad;
    var j :| 0 <= j < |uris| && FirstBad(lib, uris, j)
             && e == if IsAbsolute(lib, uris[j]) then RedirectFragment(id, uris[j]) else RedirectNotAbsolute(id, uris[j]);
    var k :| 0 <= k < |uris| && FirstBad(lib, uris, k)
             && f == if IsAbsolute(lib, uris[k]) then RedirectFragment(id, uris[k]) else RedirectNotAbsolute(id, uris[k]);
    OneFirstBad(lib, uris, j, k);
  }

  lemma OneFirstBad(lib: Library, uris: seq<string>, j: nat, k: nat)
    requires j < |uris| && k < |uris| && FirstBad(lib, uris, j) && FirstBad(lib, uris, k)
    ensures j == k
  {
    hide ValidRedirect;
  }

  lemma OnePersonaReport(c: Config, i: nat, e: Invalid, f: Invalid)
    requires i < |c.personas| && PersonaReports(c, i, e) && PersonaReports(c, i, f)
    ensures e == f || ((e.ReservedClaim? || e.BadClaim?) && (f.ReservedClaim? || f.BadClaim?) && e.name == f.name)
  {
    hide CheckedClaim;
    if !(e.ReservedClaim? || e.BadClaim?) {
      OneCheckReport(c, i, e, f);
    }
  }

  lemma OneCheckReport(c: Config, i: nat, e: Invalid, f: Invalid)
    requires i < |c.personas| && PersonaReports(c, i, e) && PersonaReports(c, i, f)
    requires !(e.ReservedClaim? || e.BadClaim?)
    ensures e == f
  {
    hide CheckedClaim;
  }

  /** Validation accepts exactly what is checked, and reports the first error otherwise. */
  method Validate(c: Config, lib: Library) returns (r: Result<(), Invalid>)
    ensures r.Ok? ==> Checked(c, lib)
    ensures r.Err? ==> Reported(c, lib, r.error)
  {
    if c.issuer == "" { return Err(IssuerMissing); }
    if !GoodIssuer(lib, c.issuer) { return Err(IssuerNotUrl); }
    if EndsWithSlash(lib.parseUrl(c.issuer).value.path) { return Err(IssuerSlash); }
    if c.seed == "" { return Err(SeedMissing); }
    if c.algorithm == "EdDSA" {
      if c.rsaKeyFile != "" { return Err(KeyFileUnused); }
    } else if c.algorithm == "RS256" {
      if c.rsaKeyFile == "" { return Err(KeyFileMissing); }
    } else {
      return Err(UnsupportedAlgorithm);
    }
    if c.clients == [] { return Err(NoClients); }
    hide ClientFine;
    hide PersonaFine;
    hide ClientReports;
    hide PersonaReports;
    r := ValidateClients(c, lib);
    if r.Err? { return r; }
    if c.personas == [] { return Err(NoPersonas); }
    r := ValidatePersonas(c, lib);
    if r.Err? { return r; }
    FineIsChecked(c, lib);
  }

  lemma FineIsChecked(c: Config, lib: Library)
    requires HeadFine(c, lib) && c.personas != []
    requires forall i :: 0 <= i < |c.clients| ==> ClientFine(c, lib, i)
    requires forall i :: 0 <= i < |c.personas| ==> PersonaFine(c, i)
    ensures Checked(c, lib)
  {
    hide ValidClient;
    hide CheckedPersona;
    forall i | 0 <= i < |c.clients|
      ensures ValidClient(lib, c.clients[i]) && forall j :: 0 <= j < i ==> c.clients[j].id != c.clients[i].id
    {
      assert ClientFine(c, lib, i);
    }
    forall i | 0 <= i < |c.personas|
      ensures CheckedPersona(c.personas[i])
      ensures forall j :: 0 <= j < i ==> c.personas[j].name != c.personas[i].name
      ensures forall j :: 0 <= j < i ==> c.personas[j].subject != c.personas[i].subject
    {
      assert PersonaFine(c, i);
    }
  }

  method ValidateClients(c: Config, lib: Library) returns (r: Result<(), Invalid>)
    ensures r.Ok? ==> forall i :: 0 <= i < |c.clients| ==> ClientFine(c, lib, i)
    ensures r.Err? ==> exists i :: 0 <= i < |c.clients| && !ClientFine(c, lib, i) && ClientReports(c, lib, i, r.error)
                                   && forall j :: 0 <= j < i ==> ClientFine(c, lib, j)
  {
    hide ClientFine;
    hide ClientReports;
    var seen: set<string> := {};
    for i := 0 to |c.clients|
      invariant forall j :: 0 <= j < i ==> ClientFine(c, lib, j)
      invariant seen == set j | 0 <= j < i :: c.clients[j].id
    {
      var cl := c.clients[i];
      r := ValidateClient(c, lib, i, seen);
      if r.Err? { return r; }
      seen := seen + {cl.id};
    }
    return Ok(());
  }

  /** One step of the clients loop, with the ids seen so far. */
  method ValidateClient(c: Config, lib: Library, i: nat, seen: set<string>) returns (r: Result<(), Invalid>)
    requires i < |c.clients| && seen == set j | 0 <= j < i :: c.clients[j].id
    ensures r.Ok? <==> ClientFine(c, lib, i)
    ensures r.Err? ==> ClientReports(c, lib, i, r.error)
  {
    hide IsAbsolute;
    var cl := c.clients[i];
    if cl.id == "" { return Err(ClientIdMissing(i)); }
    if cl.id in seen { return Err(ClientTwice(cl.id)); }
    if cl.redirectURIs == [] { return Err(NoRedirects(cl.id)); }
    for k := 0 to |cl.redirectURIs|
      invariant forall j :: 0 <= j < k ==> ValidRedirect(lib, cl.redirectURIs[j])
    {
      var uri := cl.redirectURIs[k];
      if !IsAbsolute(lib, uri) {
        assert FirstBad(lib, cl.redirectURIs, k);
        return Err(RedirectNotAbsolute(cl.id, uri));
      }
      if !NoFragment(lib, uri) {
        assert FirstBad(lib, cl.redirectURIs, k);
        return Err(RedirectFragment(cl.id, uri));
      }
    }
    return Ok(());
  }

  method ValidatePersonas(c: Config, lib: Library) returns (r: Result<(), Invalid>)
    ensures r.Ok? ==> forall i :: 0 <= i < |c.personas| ==> PersonaFine(c, i)
    ensures r.Err? ==> exists i :: 0 <= i < |c.personas| && !PersonaFine(c, i) && PersonaReports(c, i, r.error)
                                   && forall j :: 0 <= j < i ==> PersonaFine(c, j)
  {
    hide PersonaFine;
    hide PersonaReports;
    var seenName: set<string>, seenSub: set<string> := {}, {};
    for i := 0 to |c.personas|
      invariant forall j :: 0 <= j < i ==> PersonaFine(c, j)
      invariant seenName == set j | 0 <= j < i :: c.personas[j].name
      invariant seenSub == set j | 0 <= j < i :: c.personas[j].subject
    {
      var p := c.personas[i];
      r := ValidatePersona(c, i, seenName, seenSub);
      if r.Err? { return r; }
      seenName, seenSub := seenName + {p.name}, seenSub + {p.subject};
    }
    return Ok(());
  }

  /** One step of the personas loop, with the names and subjects seen so far. */
  method ValidatePersona(c: Config, i: nat, seenName: set<string>, seenSub: set<string>)
    returns (r: Result<(), Invalid>)
    requires i < |c.personas|
    requires seenName == set j | 0 <= j < i :: c.personas[j].name
    requires seenSub == set j | 0 <= j < i :: c.personas[j].subject
    ensures r.Ok? <==> PersonaFine(c, i)
    ensures r.Err? ==> PersonaReports(c, i, r.error)
  {
    hide CheckedClaim;
    var p := c.personas[i];
    if p.name == "" { return Err(NameMissing(i)); }
    if p.subject == "" { return Err(SubjectMissing(p.name)); }
    if p.name in seenName { return Err(NameTwice(p.name)); }
    if p.subject in seenSub { return Err(SubjectTwice(p.subject)); }
    r := ValidateClaims(p);
  }

  /** The claims are met in some order. */
  method ValidateClaims(p: Persona) returns (r: Result<(), Invalid>)
    ensures r.Ok? ==> forall k :: k in p.claims ==> CheckedClaim(k, p.claims[k])
    ensures r.Err? ==> exists k :: k in p.claims && !CheckedClaim(k, p.claims[k])
                                   && r.error == if k in RESERVED_CLAIMS then ReservedClaim(p.name, k)
                                                 else BadClaim(p.name, k)
  {
    var rest := p.claims.Keys;
    while rest != {}
      invariant rest <= p.claims.Keys
      invariant forall k :: k in p.claims && k !in rest ==> CheckedClaim(k, p.claims[k])
      decreases |rest|
    {
      var k :| k in rest;
      if k in RESERVED_CLAIMS { return Err(ReservedClaim(p.name, k)); }
      var flat := ValidClaimValue(p.claims[k]);
      if !flat { return Err(BadClaim(p.name, k)); }
      rest := rest - {k};
    }
    return Ok(());
  }

  method ValidClaimValue(v: Tree) returns (ok: bool)
    ensures ok <==> FlatClaim(v)
  {
    match v {
      case Leaf(_) => return true;
      case Map(_) => return false;
      case Arr(es) =>
        for i := 0 to |es|
          invariant forall j :: 0 <= j < i ==> es[j].Leaf?
        {
          if !es[i].Leaf? { return false; }
        }
        return true;
    }
  }

  // ----- lookups -----

  /** The first persona with that name. */
  function PersonaNamed(c: Config, name: string): Option<Persona> {
    FindName(c.personas, name)
  }

  function FindName(ps: seq<Persona>, name: string): (r: Option<Persona>)
    ensures r.Some? ==> r.value in ps && r.value.name == name
    ensures r.None? ==> forall p :: p in ps ==> p.name != name
  {
    if ps == [] then None else if ps[0].name == name then Some(ps[0]) else FindName(ps[1..], name)
  }

  function ClientById(c: Config, id: string): Option<Client> {
    FindClient(c.clients, id)
  }

  function FindClient(cs: seq<Client>, id: string): (r: Option<Client>)
    ensures r.Some? ==> r.value in cs && r.value.id == id
    ensures r.None? ==> forall c :: c in cs ==> c.id != id
  {
    if cs == [] then None else if cs[0].id == id then Some(cs[0]) else FindClient(cs[1..], id)
  }

  predicate RedirectAllowed(c: Client, uri: string) {
    uri in c.redirectURIs
  }

  /** The name of the first persona with that subject, "" if there is none. */
  function NameBySubject(ps: seq<Persona>, sub: string): (r: string)
    ensures (exists p :: p in ps && p.subject == sub && p.name == r) || (r == "" && forall p :: p in ps ==> p.subject != sub)
  {
    if ps == [] then "" else if ps[0].subject == sub then ps[0].name else NameBySubject(ps[1..], sub)
  }

  /** In a valid configuration a persona is found by its subject exactly when it has it. */
  lemma LookupBySubject(c: Config, lib: Library, sub: string, p: Persona)
    requires ValidConfig(c, lib)
    ensures PersonaNamed(c, NameBySubject(c.personas, sub)) == Some(p) <==> p in c.personas && p.subject == sub
  {
    var name := NameBySubject(c.personas, sub);
    EntriesValid(c, lib);
    if q :| q in c.personas && q.subject == sub && q.name == name {
      UniquePersona(c, lib, q);
      if p in c.personas && p.subject == sub {
        UniqueSubject(c, lib, p, q);
      }
    }
  }

  lemma UniqueSubject(c: Config, lib: Library, p: Persona, q: Persona)
    requires ValidConfig(c, lib) && p in c.personas && q in c.personas && p.subject == q.subject
    ensures p == q
  {
    var i :| 0 <= i < |c.personas| && c.personas[i] == p;
    var j :| 0 <= j < |c.personas| && c.personas[j] == q;
  }

  /** A persona is what its name finds. */
  lemma UniquePersona(c: Config, lib: Library, p: Persona)
    requires ValidConfig(c, lib) && p in c.personas
    ensures PersonaNamed(c, p.name) == Some(p)
  {
    var q := PersonaNamed(c, p.name).value;
    var i :| 0 <= i < |c.personas| && c.personas[i] == p;
    var j :| 0 <= j < |c.personas| && c.personas[j] == q;
  }

  /** A client is what its id finds. */
  lemma UniqueClient(c: Config, lib: Library, cl: Client)
    requires ValidConfig(c, lib) && cl in c.clients
    ensures ClientById(c, cl.id) == Some(cl)
  {
    var q := ClientById(c, cl.id).value;
    var i :| 0 <= i < |c.clients| && c.clients[i] == cl;
    var j :| 0 <= j < |c.clients| && c.clients[j] == q;
  }
}
