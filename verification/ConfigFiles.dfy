/** Persona files and the configurations they describe, key by key in the documented names: loading
    accepts exactly the trees that describe a configuration that passes validation, and returns that
    configuration; and every such configuration is loaded from the file that is written for it. */
module ConfigFiles {
  import opened Prelude
  import opened Order
  import opened TomlTree
  import opened TomlRuns
  import opened TomlListing
  import opened TomlDocument
  import opened Config

  // ----- one key -----

  /** The key holds this string, or is absent and the string is the default. */
  predicate HoldsString(m: Table, key: string, v: string, absent: string) {
    if key in m then m[key] == Leaf(Str(v)) else v == absent
  }

  predicate HoldsBool(m: Table, key: string, v: bool, absent: bool) {
    if key in m then m[key] == Leaf(Bool(v)) else v == absent
  }

  /** The key holds exactly these strings, or is absent and there are none. */
  predicate HoldsStrings(m: Table, key: string, vs: seq<string>) {
    if key in m then
      m[key].Arr? && |m[key].elems| == |vs| && forall i :: 0 <= i < |vs| ==> m[key].elems[i] == Leaf(Str(vs[i]))
    else vs == []
  }

  predicate HoldsTable(m: Table, key: string, t: Table) {
    if key in m then m[key] == Map(t) else t == map[]
  }

  predicate OnlyKeys(m: Table, keys: seq<string>) {
    forall k :: k in m ==> k in keys
  }

  // ----- entries -----

  /** A [[clients]] entry. */
  predicate DescribesClient(m: Table, c: Client) {
    && OnlyKeys(m, ["client_id", "client_secret", "redirect_uris"])
    && HoldsString(m, "client_id", c.id, "")
    && HoldsString(m, "client_secret", c.secret, "")
    && HoldsStrings(m, "redirect_uris", c.redirectURIs)
  }

  /** A [[personas]] entry. */
  predicate DescribesPersona(m: Table, p: Persona) {
    && OnlyKeys(m, ["name", "subject", "email", "email_verified", "groups", "claims"])
    && HoldsString(m, "name", p.name, "")
    && HoldsString(m, "subject", p.subject, "")
    && HoldsString(m, "email", p.email, "")
    && HoldsBool(m, "email_verified", p.emailVerified, false)
    && HoldsStrings(m, "groups", p.groups)
    && HoldsTable(m, "claims", p.claims)
  }

  predicate TtlText(lib: Library, text: string, ttl: int) {
    if text == "" then ttl == 60 * 60 * 1_000_000_000 else lib.parseDuration(text) == Some(ttl) && ttl > 0
  }

  predicate TimeText(lib: Library, text: string, at: Option<int>) {
    if text == "" then at == None else at.Some? && lib.parseTime(text) == at
  }

  /** The [tokens] table, which may be absent: EdDSA, no key file, one hour, a running clock. */
  ghost predicate DescribesTokens(m: Table, c: Config, lib: Library) {
    exists ttl, at ::
      && OnlyKeys(m, ["algorithm", "ttl", "issued_at", "rsa_key_file"])
      && HoldsString(m, "algorithm", c.algorithm, "EdDSA")
      && HoldsString(m, "rsa_key_file", c.rsaKeyFile, "")
      && HoldsString(m, "ttl", ttl, "") && TtlText(lib, ttl, c.ttl)
      && HoldsString(m, "issued_at", at, "") && TimeText(lib, at, c.issuedAt)
  }

  predicate DescribesClients(m: Table, cs: seq<Client>) {
    if "clients" in m then
      var t := m["clients"];
      t.Arr? && |t.elems| == |cs| &&
      forall i :: 0 <= i < |cs| ==> t.elems[i].Map? && DescribesClient(t.elems[i].entries, cs[i])
    else cs == []
  }

  predicate DescribesPersonas(m: Table, ps: seq<Persona>) {
    if "personas" in m then
      var t := m["personas"];
      t.Arr? && |t.elems| == |ps| &&
      forall i :: 0 <= i < |ps| ==> t.elems[i].Map? && DescribesPersona(t.elems[i].entries, ps[i])
    else ps == []
  }

  /** The tree of a persona file and the configuration it describes. */
  ghost predicate Describes(m: Table, c: Config, lib: Library) {
    && OnlyKeys(m, ["issuer", "seed", "tokens", "clients", "personas"])
    && HoldsString(m, "issuer", c.issuer, "")
    && HoldsString(m, "seed", c.seed, "")
    && (if "tokens" in m then m["tokens"].Map? && DescribesTokens(m["tokens"].entries, c, lib)
        else DescribesTokens(map[], c, lib))
    && DescribesClients(m, c.clients)
    && DescribesPersonas(m, c.personas)
  }

  // ----- what reading takes -----

  lemma StringRead(m: Table, key: string, v: string, def: string)
    ensures HoldsString(m, key, v, def) <==> StrProblem(m, key) == [] && StrAt(m, key, def) == v
  {
  }

  lemma BoolRead(m: Table, key: string, v: bool, def: bool)
    ensures HoldsBool(m, key, v, def) <==> BoolProblem(m, key) == [] && BoolAt(m, key, def) == v
  {
  }

  lemma StringsRead(m: Table, key: string, vs: seq<string>)
    ensures HoldsStrings(m, key, vs) <==> StrsProblem(m, key) == [] && StrsAt(m, key) == vs
  {
    if key in m && m[key].Arr? {
      var xs := m[key].elems;
      if AllStrings(xs) {
        assert forall i :: 0 <= i < |xs| ==> xs[i] == Leaf(Str(StringsOf(xs)[i]));
      } else if |xs| == |vs| {
        var i :| 0 <= i < |xs| && !(xs[i].Leaf? && xs[i].x.Str?);
        assert xs[i] != Leaf(Str(vs[i]));
      }
    }
  }

  lemma KeysRead(m: Table, place: Where, keys: seq<string>)
    ensures OnlyKeys(m, keys) <==> UnknownProblem(m, place, keys) == []
  {
    var unknown := m.Keys - Elements(keys);
    if unknown == {} {
      forall k | k in m ensures k in keys {
        assert k !in unknown;
      }
    } else {
      var k :| k in unknown;
      assert k in m && k !in Elements(keys);
    }
  }

  lemma ClientRead(m: Table, c: Client, i: nat)
    ensures DescribesClient(m, c) <==> ClientProblems(m, i) == [] && ClientOf(m) == c
  {
    KeysRead(m, ClientAt(i), CLIENT_KEYS);
    StringRead(m, "client_id", c.id, "");
    StringRead(m, "client_secret", c.secret, "");
    StringsRead(m, "redirect_uris", c.redirectURIs);
    hide HoldsString;
    hide HoldsStrings;
    hide OnlyKeys;
    hide UnknownProblem;
    hide StrProblem;
    hide StrsProblem;
    hide StrAt;
    hide StrsAt;
  }

  lemma ClaimsRead(m: Table, t: Table)
    ensures HoldsTable(m, "claims", t) <==>
            ("claims" in m ==> m["claims"].Map?)
            && t == if "claims" in m && m["claims"].Map? then m["claims"].entries else map[]
  {
  }

  lemma PersonaRead(m: Table, p: Persona, i: nat)
    ensures DescribesPersona(m, p) <==>
            PersonaProblems(m, i) == [] && ("claims" in m ==> m["claims"].Map?) && PersonaOf(m) == p
  {
    KeysRead(m, PersonaAt(i), PERSONA_KEYS);
    StringRead(m, "name", p.name, "");
    StringRead(m, "subject", p.subject, "");
    StringRead(m, "email", p.email, "");
    BoolRead(m, "email_verified", p.emailVerified, false);
    StringsRead(m, "groups", p.groups);
    ClaimsRead(m, p.claims);
    hide HoldsString;
    hide HoldsStrings;
    hide HoldsBool;
    hide HoldsTable;
    hide OnlyKeys;
    hide UnknownProblem;
    hide StrProblem;
    hide StrsProblem;
    hide BoolProblem;
    hide StrAt;
    hide StrsAt;
    hide BoolAt;
  }

  lemma TokensRead(tt: Table, c: Config, lib: Library)
    ensures DescribesTokens(tt, c, lib) <==>
            && TokenProblems(tt) == []
            && GoodTtl(lib, StrAt(tt, "ttl", "")) && GoodTime(lib, StrAt(tt, "issued_at", ""))
            && SettingsOf(tt, lib) == TokenSettings(c.algorithm, c.rsaKeyFile, c.ttl, c.issuedAt)
  {
    KeysRead(tt, Tokens, TOKEN_KEYS);
    StringRead(tt, "algorithm", c.algorithm, "EdDSA");
    StringRead(tt, "rsa_key_file", c.rsaKeyFile, "");
    forall v ensures HoldsString(tt, "ttl", v, "") <==> StrProblem(tt, "ttl") == [] && StrAt(tt, "ttl", "") == v {
      StringRead(tt, "ttl", v, "");
    }
    forall v ensures HoldsString(tt, "issued_at", v, "") <==>
                     StrProblem(tt, "issued_at") == [] && StrAt(tt, "issued_at", "") == v
    {
      StringRead(tt, "issued_at", v, "");
    }
    hide HoldsString;
    hide OnlyKeys;
    hide UnknownProblem;
    hide StrProblem;
    hide StrAt;
    var ttl, at := StrAt(tt, "ttl", ""), StrAt(tt, "issued_at", "");
    TextsRead(lib, ttl, at, c.ttl, c.issuedAt);
    hide TtlText;
    hide TimeText;
    hide GoodTtl;
    hide GoodTime;
  }

  lemma TextsRead(lib: Library, ttl: string, at: string, d: int, t: Option<int>)
    ensures TtlText(lib, ttl, d) <==>
            GoodTtl(lib, ttl) && d == if ttl == "" then DEFAULT_TTL else lib.parseDuration(ttl).value
    ensures TimeText(lib, at, t) <==> GoodTime(lib, at) && t == if at == "" then None else lib.parseTime(at)
  {
  }

  lemma {:induction false} ClientsClean(ms: seq<Table>)
    ensures ClientsProblems(ms) == [] <==> forall i :: 0 <= i < |ms| ==> ClientProblems(ms[i], i) == []
  {
    hide ClientProblems;
    if ms == [] {
    } else {
      var front := ms[..|ms| - 1];
      ClientsClean(front);
      assert forall i :: 0 <= i < |front| ==> front[i] == ms[i];
    }
  }

  lemma {:induction false} PersonasClean(ms: seq<Table>)
    ensures PersonasProblems(ms) == [] <==> forall i :: 0 <= i < |ms| ==> PersonaProblems(ms[i], i) == []
  {
    hide PersonaProblems;
    if ms == [] {
    } else {
      var front := ms[..|ms| - 1];
      PersonasClean(front);
      assert forall i :: 0 <= i < |front| ==> front[i] == ms[i];
    }
  }

  lemma {:induction false} ClaimsAreTables(ms: seq<Table>)
    ensures BadClaims(ms).None? <==> forall i :: 0 <= i < |ms| ==> "claims" in ms[i] ==> ms[i]["claims"].Map?
  {
    if ms == [] {
    } else {
      var front := ms[..|ms| - 1];
      ClaimsAreTables(front);
      assert forall i :: 0 <= i < |front| ==> front[i] == ms[i];
    }
  }

  lemma ClientsRead(m: Table, cs: seq<Client>)
    ensures DescribesClients(m, cs) <==>
            && IsTables(m, "clients") && ClientsProblems(TablesAt(m, "clients")) == []
            && Clients(TablesAt(m, "clients")) == cs
  {
    hide ClientProblems;
    hide ClientOf;
    hide DescribesClient;
    forall t: Table, c: Client, i: nat
      ensures DescribesClient(t, c) <==> ClientProblems(t, i) == [] && ClientOf(t) == c
    {
      ClientRead(t, c, i);
    }
    if "clients" in m && m["clients"].Arr? {
      if AreTables(m["clients"].elems) {
        var ms := TablesAt(m, "clients");
        ClientsClean(ms);
        assert Clients(ms) == cs <==> |ms| == |cs| && forall i :: 0 <= i < |cs| ==> ClientOf(ms[i]) == cs[i];
        assert forall i :: 0 <= i < |ms| ==> ms[i] == m["clients"].elems[i].entries;
      }
    }
  }

  lemma PersonasRead(m: Table, ps: seq<Persona>)
    ensures DescribesPersonas(m, ps) <==>
            && IsTables(m, "personas") && BadClaims(TablesAt(m, "personas")).None?
            && PersonasProblems(TablesAt(m, "personas")) == [] && Personas(TablesAt(m, "personas")) == ps
  {
    hide PersonaProblems;
    hide PersonaOf;
    hide DescribesPersona;
    forall t: Table, p: Persona, i: nat
      ensures DescribesPersona(t, p) <==>
              PersonaProblems(t, i) == [] && ("claims" in t ==> t["claims"].Map?) && PersonaOf(t) == p
    {
      PersonaRead(t, p, i);
    }
    if "personas" in m && m["personas"].Arr? {
      if AreTables(m["personas"].elems) {
        var ms := TablesAt(m, "personas");
        PersonasClean(ms);
        ClaimsAreTables(ms);
        assert Personas(ms) == ps <==> |ms| == |ps| && forall i :: 0 <= i < |ps| ==> PersonaOf(ms[i]) == ps[i];
        assert forall i :: 0 <= i < |ms| ==> ms[i] == m["personas"].elems[i].entries;
      }
    }
  }

  // ----- loading -----

  /** A tree describes a configuration exactly if reading it meets no error and yields the
      configuration. */
  lemma ReadExactly(m: Table, c: Config, lib: Library)
    ensures Describes(m, c, lib) <==> Immediate(m, lib).None? && Problems(m) == [] && Read(m, lib) == c
  {
    KeysRead(m, TopLevel, TOP_KEYS);
    StringRead(m, "issuer", c.issuer, "");
    StringRead(m, "seed", c.seed, "");
    TokensRead(TokensOf(m), c, lib);
    TokensRead(map[], c, lib);
    NothingWrong();
    ClientsRead(m, c.clients);
    PersonasRead(m, c.personas);
    hide OnlyKeys;
    hide HoldsString;
    hide DescribesTokens;
    hide DescribesClients;
    hide DescribesPersonas;
    hide UnknownProblem;
    hide StrProblem;
    hide StrAt;
    hide TokenProblems;
    hide ClientsProblems;
    hide PersonasProblems;
    hide GoodTtl;
    hide GoodTime;
    hide SettingsOf;
    hide BadClaims;
    hide Clients;
    hide Personas;
    hide TablesAt;
    hide IsTables;
  }

  lemma NothingWrong()
    ensures TokenProblems(map[]) == []
  {
    KeysRead(map[], Tokens, TOKEN_KEYS);
    hide UnknownProblem;
  }

  /** Loading a tree yields a configuration exactly if the tree describes it and it passes
      validation. */
  lemma LoadsExactly(m: Table, c: Config, lib: Library)
    ensures LoadsAs(Ok(c), m, lib) <==> Describes(m, c, lib) && Checked(c, lib)
  {
    hide Describes;
    hide Immediate;
    hide Problems;
    hide Read;
    hide Checked;
    hide Reported;
    ReadExactly(m, c, lib);
  }

  /** ... and then yields nothing else. */
  lemma LoadsOnly(m: Table, c: Config, lib: Library, r: Result<Config, Error>)
    requires Describes(m, c, lib) && Checked(c, lib)
    ensures LoadsAs(r, m, lib) <==> r == Ok(c)
  {
    hide Describes;
    hide Immediate;
    hide Problems;
    hide Read;
    hide Checked;
    hide Reported;
    ReadExactly(m, c, lib);
  }

  // ----- which error any other tree gets -----

  /** The key holds this text, which is not empty. */
  predicate Gives(m: Table, key: string, text: string) {
    key in m && m[key] == Leaf(Str(text)) && text != ""
  }

  predicate PositiveDuration(lib: Library, text: string) {
    lib.parseDuration(text).Some? && lib.parseDuration(text).value > 0
  }

  ghost predicate LifetimeFine(tt: Table, lib: Library) {
    forall s :: Gives(tt, "ttl", s) ==> PositiveDuration(lib, s)
  }

  ghost predicate ClockFine(tt: Table, lib: Library) {
    forall s :: Gives(tt, "issued_at", s) ==> lib.parseTime(s).Some?
  }

  /** There is no [tokens] entry, or it is a table whose lifetime and time parse. */
  ghost predicate TokensFine(m: Table, lib: Library) {
    "tokens" in m ==>
      m["tokens"].Map? && LifetimeFine(m["tokens"].entries, lib) && ClockFine(m["tokens"].entries, lib)
  }

  predicate TablesOrAbsent(m: Table, key: string) {
    key in m ==> m[key].Arr? && forall i :: 0 <= i < |m[key].elems| ==> m[key].elems[i].Map?
  }

  predicate ClaimsFine(m: Table) {
    "claims" in m ==> m["claims"].Map?
  }

  lemma TextsFine(tt: Table, lib: Library)
    ensures GoodTtl(lib, StrAt(tt, "ttl", "")) <==> LifetimeFine(tt, lib)
    ensures GoodTime(lib, StrAt(tt, "issued_at", "")) <==> ClockFine(tt, lib)
  {
    var ttl, at := StrAt(tt, "ttl", ""), StrAt(tt, "issued_at", "");
    assert Gives(tt, "ttl", ttl) || ttl == "";
    assert Gives(tt, "issued_at", at) || at == "";
  }

  /** The errors of the [tokens] entry, each exactly when it is given. */
  lemma TokensRefused(m: Table, lib: Library, text: string)
    ensures Immediate(m, lib) == Some(TokensNotTable) <==> "tokens" in m && !m["tokens"].Map?
    ensures Immediate(m, lib) == Some(BadTtl(text)) <==>
            && "tokens" in m && m["tokens"].Map?
            && Gives(m["tokens"].entries, "ttl", text) && !PositiveDuration(lib, text)
    ensures Immediate(m, lib) == Some(BadIssuedAt(text)) <==>
            && "tokens" in m && m["tokens"].Map? && LifetimeFine(m["tokens"].entries, lib)
            && Gives(m["tokens"].entries, "issued_at", text) && lib.parseTime(text).None?
    ensures Immediate(m, lib).None? || Immediate(m, lib).value.NotTables? || Immediate(m, lib).value.ClaimsNotTable?
            <==> TokensFine(m, lib)
  {
    TextsFine(TokensOf(m), lib);
    hide BadClaims;
  }

  /** The errors of entries that are no tables, each exactly when it is given. */
  lemma EntriesRefused(m: Table, lib: Library, key: string, i: nat)
    ensures Immediate(m, lib) == Some(NotTables(key)) <==>
            && TokensFine(m, lib) && !TablesOrAbsent(m, key)
            && (key == "clients" || (key == "personas" && TablesOrAbsent(m, "clients")))
    ensures Immediate(m, lib) == Some(ClaimsNotTable(i)) <==>
            && TokensFine(m, lib) && TablesOrAbsent(m, "clients") && TablesOrAbsent(m, "personas")
            && "personas" in m && i < |m["personas"].elems| && !ClaimsFine(m["personas"].elems[i].entries)
            && forall j :: 0 <= j < i ==> ClaimsFine(m["personas"].elems[j].entries)
  {
    TextsFine(TokensOf(m), lib);
    assert "tokens" !in m ==> LifetimeFine(TokensOf(m), lib) && ClockFine(TokensOf(m), lib);
    hide LifetimeFine;
    hide ClockFine;
    hide GoodTtl;
    hide GoodTime;
    hide StrAt;
    if IsTables(m, "personas") {
      var ms := TablesAt(m, "personas");
      FirstBadClaims(ms, i);
      assert "personas" in m ==>
        |ms| == |m["personas"].elems| && forall j :: 0 <= j < |ms| ==> ms[j] == m["personas"].elems[j].entries;
    }
    hide BadClaims;
  }

  lemma {:induction false} FirstBadClaims(ms: seq<Table>, i: nat)
    ensures BadClaims(ms) == Some(i) <==>
            i < |ms| && !ClaimsFine(ms[i]) && forall j :: 0 <= j < i ==> ClaimsFine(ms[j])
  {
    if ms == [] {
    } else {
      var front := ms[..|ms| - 1];
      FirstBadClaims(front, i);
      assert forall j :: 0 <= j < |front| ==> front[j] == ms[j];
      ClaimsAreTables(front);
    }
  }

  predicate NotText(m: Table, key: string) {
    key in m && !(m[key].Leaf? && m[key].x.Str?)
  }

  predicate NotTruth(m: Table, key: string) {
    key in m && !(m[key].Leaf? && m[key].x.Bool?)
  }

  predicate NotAllTexts(xs: seq<Tree>) {
    exists i :: 0 <= i < |xs| && !(xs[i].Leaf? && xs[i].x.Str?)
  }

  predicate LeastUnknown(m: Table, known: seq<string>, k: string) {
    k in m && k !in known && forall j :: j in m && j !in known && j != k ==> Less(k, j)
  }

  predicate AllText(m: Table, keys: seq<string>) {
    forall i :: 0 <= i < |keys| ==> !NotText(m, keys[i])
  }

  /** The first of these keys that holds no string. */
  predicate FirstNotText(m: Table, keys: seq<string>, p: Problem) {
    exists i :: 0 <= i < |keys| && NotText(m, keys[i]) && p == NotString(keys[i])
                && forall j :: 0 <= j < i ==> !NotText(m, keys[j])
  }

  predicate FaultyList(m: Table, key: string, p: Problem) {
    && key in m
    && if m[key].Arr? then NotAllTexts(m[key].elems) && p == HoldsNonString(key) else p == NotStrings(key)
  }

  /** The fault of one table: its least unknown key, or else the first key with a wrong type. */
  predicate FaultOf(m: Table, place: Where, p: Problem) {
    match place
    case TopLevel =>
      if OnlyKeys(m, ["issuer", "seed", "tokens", "clients", "personas"]) then FirstNotText(m, ["issuer", "seed"], p)
      else p.UnknownKey? && p.place == TopLevel
           && LeastUnknown(m, ["issuer", "seed", "tokens", "clients", "personas"], p.key)
    case Tokens =>
      if OnlyKeys(m, ["algorithm", "ttl", "issued_at", "rsa_key_file"]) then
        FirstNotText(m, ["algorithm", "rsa_key_file", "ttl", "issued_at"], p)
      else p.UnknownKey? && p.place == Tokens
           && LeastUnknown(m, ["algorithm", "ttl", "issued_at", "rsa_key_file"], p.key)
    case ClientAt(i) =>
      if !OnlyKeys(m, ["client_id", "client_secret", "redirect_uris"]) then
        p.UnknownKey? && p.place == ClientAt(i)
        && LeastUnknown(m, ["client_id", "client_secret", "redirect_uris"], p.key)
      else if !AllText(m, ["client_id", "client_secret"]) then FirstNotText(m, ["client_id", "client_secret"], p)
      else FaultyList(m, "redirect_uris", p)
    case PersonaAt(i) =>
      if !OnlyKeys(m, ["name", "subject", "email", "email_verified", "groups", "claims"]) then
        p.UnknownKey? && p.place == PersonaAt(i)
        && LeastUnknown(m, ["name", "subject", "email", "email_verified", "groups", "claims"], p.key)
      else if !AllText(m, ["name", "subject", "email"]) then FirstNotText(m, ["name", "subject", "email"], p)
      else if NotTruth(m, "email_verified") then p == NotBoolean("email_verified")
      else FaultyList(m, "groups", p)
  }

  ghost predicate Faultless(m: Table, place: Where) {
    forall p :: !FaultOf(m, place, p)
  }

  /** The table t stands at this place of the file. */
  predicate Stands(m: Table, place: Where, t: Table) {
    match place
    case TopLevel => t == m
    case Tokens => "tokens" in m && m["tokens"] == Map(t)
    case ClientAt(i) =>
      "clients" in m && m["clients"].Arr? && i < |m["clients"].elems| && m["clients"].elems[i] == Map(t)
    case PersonaAt(i) =>
      "personas" in m && m["personas"].Arr? && i < |m["personas"].elems| && m["personas"].elems[i] == Map(t)
  }

  /** The top level is read first, then [tokens], the clients and the personas. */
  predicate ReadBefore(a: Where, b: Where) {
    match b
    case TopLevel => false
    case Tokens => a == TopLevel
    case ClientAt(i) => a == TopLevel || a == Tokens || (a.ClientAt? && a.i < i)
    case PersonaAt(i) => a == TopLevel || a == Tokens || a.ClientAt? || (a.PersonaAt? && a.i < i)
  }

  /** Nothing is wrong in the tables that are read before. */
  ghost predicate FineBefore(m: Table, place: Where) {
    forall q, u :: ReadBefore(q, place) && Stands(m, q, u) ==> Faultless(u, q)
  }

  /** The table t at this place holds the first fault of the file. */
  ghost predicate FirstFault(m: Table, place: Where, t: Table, p: Problem) {
    Stands(m, place, t) && FaultOf(t, place, p) && FineBefore(m, place)
  }

  /** The problems of one table as reading meets them. */
  ghost function Own(t: Table, place: Where): seq<Problem> {
    match place
    case TopLevel => UnknownProblem(t, TopLevel, TOP_KEYS) + StrProblem(t, "issuer") + StrProblem(t, "seed")
    case Tokens => TokenProblems(t)
    case ClientAt(i) => ClientProblems(t, i)
    case PersonaAt(i) => PersonaProblems(t, i)
  }

  predicate Heads(ps: seq<Problem>, p: Problem) {
    ps != [] && ps[0] == p
  }

  lemma UnknownHeads(m: Table, place: Where, known: seq<string>, p: Problem)
    ensures Heads(UnknownProblem(m, place, known), p) <==>
            p.UnknownKey? && p.place == place && LeastUnknown(m, known, p.key)
  {
    var unknown := m.Keys - Elements(known);
    if unknown != {} {
      var ks := SortedKeys(unknown);
      NoElements(ks);
      assert ks[0] in Elements(ks);
      forall j | j in unknown && j != ks[0] ensures Less(ks[0], j) {
        assert j in Elements(ks);
      }
      if p.UnknownKey? && LeastUnknown(m, known, p.key) && p.key != ks[0] {
        assert p.key in unknown;
        Transitive(p.key, ks[0], p.key);
        Irreflexive(p.key);
      }
    } else if p.UnknownKey? {
      assert p.key !in unknown;
    }
  }

  lemma TextHeads(m: Table, key: string, p: Problem)
    ensures Heads(StrProblem(m, key), p) <==> NotText(m, key) && p == NotString(key)
    ensures StrProblem(m, key) == [] <==> !NotText(m, key)
  {
  }

  lemma ListHeads(m: Table, key: string, p: Problem)
    ensures Heads(StrsProblem(m, key), p) <==> FaultyList(m, key, p)
  {
  }

  lemma JoinHeads(a: seq<Problem>, b: seq<Problem>, p: Problem)
    ensures Heads(a + b, p) <==> Heads(a, p) || (a == [] && Heads(b, p))
  {
  }

  ghost function TextProblems(m: Table, keys: seq<string>): seq<Problem> {
    if keys == [] then [] else TextProblems(m, keys[..|keys| - 1]) + StrProblem(m, keys[|keys| - 1])
  }

  lemma OneMoreText(m: Table, keys: seq<string>, key: string)
    ensures TextProblems(m, keys + [key]) == TextProblems(m, keys) + StrProblem(m, key)
  {
    assert (keys + [key])[..|keys|] == keys;
  }

  lemma {:induction false} TextsHead(m: Table, keys: seq<string>, p: Problem)
    ensures TextProblems(m, keys) == [] <==> AllText(m, keys)
    ensures Heads(TextProblems(m, keys), p) <==> FirstNotText(m, keys, p)
  {
    if keys == [] {
    } else {
      var n := |keys| - 1;
      var front := keys[..n];
      TextsHead(m, front, p);
      TextHeads(m, keys[n], p);
      JoinHeads(TextProblems(m, front), StrProblem(m, keys[n]), p);
      hide NotText;
      hide StrProblem;
      hide Heads;
      assert forall i :: 0 <= i < n ==> front[i] == keys[i];
      FirstOfMore(m, keys, p);
    }
  }

  lemma FirstOfMore(m: Table, keys: seq<string>, p: Problem)
    requires keys != []
    ensures var n := |keys| - 1;
            FirstNotText(m, keys, p) <==>
            FirstNotText(m, keys[..n], p) || (AllText(m, keys[..n]) && NotText(m, keys[n]) && p == NotString(keys[n]))
  {
    hide NotText;
    var n := |keys| - 1;
    var front := keys[..n];
    assert forall i :: 0 <= i < n ==> front[i] == keys[i];
    if FirstNotText(m, front, p) {
      var i :| 0 <= i < n && NotText(m, front[i]) && p == NotString(front[i])
               && forall j :: 0 <= j < i ==> !NotText(m, front[j]);
      assert NotText(m, keys[i]) && forall j :: 0 <= j < i ==> !NotText(m, keys[j]);
    }
    if FirstNotText(m, keys, p) {
      var i :| 0 <= i < |keys| && NotText(m, keys[i]) && p == NotString(keys[i])
               && forall j :: 0 <= j < i ==> !NotText(m, keys[j]);
      assert i < n ==> NotText(m, front[i]) && forall j :: 0 <= j < i ==> !NotText(m, front[j]);
    }
  }

  lemma FewTexts(m: Table, a: string, b: string, c: string, d: string)
    ensures TextProblems(m, [a, b]) == StrProblem(m, a) + StrProblem(m, b)
    ensures TextProblems(m, [a, b, c]) == StrProblem(m, a) + StrProblem(m, b) + StrProblem(m, c)
    ensures TextProblems(m, [a, b, c, d]) ==
            StrProblem(m, a) + StrProblem(m, b) + StrProblem(m, c) + StrProblem(m, d)
  {
    OneMoreText(m, [], a);
    OneMoreText(m, [a], b);
    OneMoreText(m, [a, b], c);
    OneMoreText(m, [a, b, c], d);
    assert [] + [a] == [a] && [a] + [b] == [a, b] && [a, b] + [c] == [a, b, c] && [a, b, c] + [d] == [a, b, c, d];
    assert TextProblems(m, [a]) == StrProblem(m, a);
    hide TextProblems;
    hide StrProblem;
  }

  lemma TopHeads(t: Table, p: Problem)
    ensures Heads(Own(t, TopLevel), p) <==> FaultOf(t, TopLevel, p)
  {
    var keys := ["issuer", "seed"];
    var unknown, texts := UnknownProblem(t, TopLevel, TOP_KEYS), TextProblems(t, keys);
    KeysRead(t, TopLevel, TOP_KEYS);
    UnknownHeads(t, TopLevel, TOP_KEYS, p);
    FewTexts(t, "issuer", "seed", "", "");
    TextsHead(t, keys, p);
    hide UnknownProblem;
    hide LeastUnknown;
    hide OnlyKeys;
    hide StrProblem;
    hide TextProblems;
    hide FirstNotText;
    hide AllText;
    JoinHeads(unknown, texts, p);
    assert Own(t, TopLevel) == unknown + texts;
    hide Heads;
  }

  lemma TokenHeads(t: Table, p: Problem)
    ensures Heads(Own(t, Tokens), p) <==> FaultOf(t, Tokens, p)
  {
    var keys := ["algorithm", "rsa_key_file", "ttl", "issued_at"];
    var unknown, texts := UnknownProblem(t, Tokens, TOKEN_KEYS), TextProblems(t, keys);
    KeysRead(t, Tokens, TOKEN_KEYS);
    UnknownHeads(t, Tokens, TOKEN_KEYS, p);
    FewTexts(t, "algorithm", "rsa_key_file", "ttl", "issued_at");
    TextsHead(t, keys, p);
    hide UnknownProblem;
    hide LeastUnknown;
    hide OnlyKeys;
    hide StrProblem;
    hide TextProblems;
    hide FirstNotText;
    hide AllText;
    JoinHeads(unknown, texts, p);
    assert Own(t, Tokens) == unknown + texts;
    hide Heads;
  }

  lemma ClientHeads(t: Table, i: nat, p: Problem)
    ensures Heads(Own(t, ClientAt(i)), p) <==> FaultOf(t, ClientAt(i), p)
  {
    var keys := ["client_id", "client_secret"];
    var unknown, texts := UnknownProblem(t, ClientAt(i), CLIENT_KEYS), TextProblems(t, keys);
    var uris := StrsProblem(t, "redirect_uris");
    KeysRead(t, ClientAt(i), CLIENT_KEYS);
    UnknownHeads(t, ClientAt(i), CLIENT_KEYS, p);
    FewTexts(t, "client_id", "client_secret", "", "");
    TextsHead(t, keys, p);
    ListHeads(t, "redirect_uris", p);
    hide UnknownProblem;
    hide LeastUnknown;
    hide OnlyKeys;
    hide StrProblem;
    hide StrsProblem;
    hide TextProblems;
    hide FirstNotText;
    hide FaultyList;
    hide AllText;
    JoinHeads(unknown, texts, p);
    JoinHeads(unknown + texts, uris, p);
    assert Own(t, ClientAt(i)) == unknown + texts + uris;
    hide Heads;
  }

  lemma TruthHeads(m: Table, key: string, p: Problem)
    ensures Heads(BoolProblem(m, key), p) <==> NotTruth(m, key) && p == NotBoolean(key)
    ensures BoolProblem(m, key) == [] <==> !NotTruth(m, key)
  {
  }

  lemma PersonaHeads(t: Table, i: nat, p: Problem)
    ensures Heads(Own(t, PersonaAt(i)), p) <==> FaultOf(t, PersonaAt(i), p)
  {
    var keys := ["name", "subject", "email"];
    var unknown, texts := UnknownProblem(t, PersonaAt(i), PERSONA_KEYS), TextProblems(t, keys);
    var truth, groups := BoolProblem(t, "email_verified"), StrsProblem(t, "groups");
    KeysRead(t, PersonaAt(i), PERSONA_KEYS);
    UnknownHeads(t, PersonaAt(i), PERSONA_KEYS, p);
    FewTexts(t, "name", "subject", "email", "");
    TextsHead(t, keys, p);
    TruthHeads(t, "email_verified", p);
    ListHeads(t, "groups", p);
    hide UnknownProblem;
    hide LeastUnknown;
    hide OnlyKeys;
    hide StrProblem;
    hide BoolProblem;
    hide NotTruth;
    hide StrsProblem;
    hide TextProblems;
    hide FirstNotText;
    hide FaultyList;
    hide AllText;
    JoinHeads(unknown, texts, p);
    JoinHeads(unknown + texts, truth, p);
    JoinHeads(unknown + texts + truth, groups, p);
    assert Own(t, PersonaAt(i)) == unknown + texts + truth + groups;
    hide Heads;
  }

  lemma OwnHeads(t: Table, place: Where, p: Problem)
    ensures Heads(Own(t, place), p) <==> FaultOf(t, place, p)
  {
    hide Own;
    hide FaultOf;
    hide Heads;
    match place
    case TopLevel => TopHeads(t, p);
    case Tokens => TokenHeads(t, p);
    case ClientAt(i) => ClientHeads(t, i, p);
    case PersonaAt(i) => PersonaHeads(t, i, p);
  }

  lemma OwnFaultless(t: Table, place: Where)
    ensures Own(t, place) == [] <==> Faultless(t, place)
  {
    forall p ensures Heads(Own(t, place), p) <==> FaultOf(t, place, p) {
      OwnHeads(t, place, p);
    }
    hide Own;
    hide FaultOf;
    if Own(t, place) != [] {
      assert Heads(Own(t, place), Own(t, place)[0]);
    }
  }

  lemma NothingHeads(p: Problem)
    ensures !Heads([], p)
  {
  }

  /** The first faulty client of a list, and its fault. */
  ghost predicate ClientFault(ms: seq<Table>, i: nat, p: Problem) {
    && i < |ms| && FaultOf(ms[i], ClientAt(i), p)
    && forall j :: 0 <= j < i ==> Faultless(ms[j], ClientAt(j))
  }

  lemma OwnClient(t: Table, i: nat, p: Problem)
    ensures ClientProblems(t, i) == [] <==> Faultless(t, ClientAt(i))
    ensures Heads(ClientProblems(t, i), p) <==> FaultOf(t, ClientAt(i), p)
  {
    OwnFaultless(t, ClientAt(i));
    OwnHeads(t, ClientAt(i), p);
    hide FaultOf;
    hide Faultless;
    hide Heads;
    hide ClientProblems;
  }

  lemma {:induction false} ClientsHead(ms: seq<Table>, p: Problem)
    ensures ClientsProblems(ms) == [] <==> forall i :: 0 <= i < |ms| ==> Faultless(ms[i], ClientAt(i))
    ensures Heads(ClientsProblems(ms), p) <==> exists i: nat :: ClientFault(ms, i, p)
  {
    hide FaultOf;
    hide Faultless;
    hide ClientProblems;
    hide Heads;
    if ms == [] {
      NothingHeads(p);
    } else {
      var n := |ms| - 1;
      var front := ms[..n];
      ClientsHead(front, p);
      OwnClient(ms[n], n, p);
      JoinHeads(ClientsProblems(front), ClientProblems(ms[n], n), p);
      assert forall i :: 0 <= i < n ==> front[i] == ms[i];
      if exists i: nat :: ClientFault(front, i, p) {
        var i: nat :| ClientFault(front, i, p);
        assert ClientFault(ms, i, p);
      }
      if ClientsProblems(front) == [] && FaultOf(ms[n], ClientAt(n), p) {
        assert ClientFault(ms, n, p);
      }
      if exists i: nat :: ClientFault(ms, i, p) {
        var i: nat :| ClientFault(ms, i, p);
        assert if i < n then ClientFault(front, i, p) else ClientsProblems(front) == [];
      }
    }
  }

  /** The first faulty persona of a list, and its fault. */
  ghost predicate PersonaFault(ms: seq<Table>, i: nat, p: Problem) {
    && i < |ms| && FaultOf(ms[i], PersonaAt(i), p)
    && forall j :: 0 <= j < i ==> Faultless(ms[j], PersonaAt(j))
  }

  lemma OwnPersona(t: Table, i: nat, p: Problem)
    ensures PersonaProblems(t, i) == [] <==> Faultless(t, PersonaAt(i))
    ensures Heads(PersonaProblems(t, i), p) <==> FaultOf(t, PersonaAt(i), p)
  {
    OwnFaultless(t, PersonaAt(i));
    OwnHeads(t, PersonaAt(i), p);
    hide FaultOf;
    hide Faultless;
    hide Heads;
    hide PersonaProblems;
  }

  lemma {:induction false} PersonasHead(ms: seq<Table>, p: Problem)
    ensures PersonasProblems(ms) == [] <==> forall i :: 0 <= i < |ms| ==> Faultless(ms[i], PersonaAt(i))
    ensures Heads(PersonasProblems(ms), p) <==> exists i: nat :: PersonaFault(ms, i, p)
  {
    hide FaultOf;
    hide Faultless;
    hide PersonaProblems;
    hide Heads;
    if ms == [] {
      NothingHeads(p);
    } else {
      var n := |ms| - 1;
      var front := ms[..n];
      PersonasHead(front, p);
      OwnPersona(ms[n], n, p);
      JoinHeads(PersonasProblems(front), PersonaProblems(ms[n], n), p);
      assert forall i :: 0 <= i < n ==> front[i] == ms[i];
      if exists i: nat :: PersonaFault(front, i, p) {
        var i: nat :| PersonaFault(front, i, p);
        assert PersonaFault(ms, i, p);
      }
      if PersonasProblems(front) == [] && FaultOf(ms[n], PersonaAt(n), p) {
        assert PersonaFault(ms, n, p);
      }
      if exists i: nat :: PersonaFault(ms, i, p) {
        var i: nat :| PersonaFault(ms, i, p);
        assert if i < n then PersonaFault(front, i, p) else PersonasProblems(front) == [];
      }
    }
  }

  ghost predicate TokensFaultless(m: Table) {
    "tokens" in m ==> m["tokens"].Map? && Faultless(m["tokens"].entries, Tokens)
  }

  ghost predicate ClientsFaultless(ms: seq<Table>, n: nat)
    requires n <= |ms|
  {
    forall i :: 0 <= i < n ==> Faultless(ms[i], ClientAt(i))
  }

  ghost predicate PersonasFaultless(ms: seq<Table>, n: nat)
    requires n <= |ms|
  {
    forall i :: 0 <= i < n ==> Faultless(ms[i], PersonaAt(i))
  }

  /** What has been read before a client: the top level, [tokens] and the clients before it. */
  lemma BeforeClient(m: Table, i: nat)
    requires IsTables(m, "clients") && i < |TablesAt(m, "clients")| && ("tokens" in m ==> m["tokens"].Map?)
    ensures FineBefore(m, ClientAt(i)) <==>
            Faultless(m, TopLevel) && TokensFaultless(m) && ClientsFaultless(TablesAt(m, "clients"), i)
  {
    hide Faultless;
    var ms := TablesAt(m, "clients");
    if FineBefore(m, ClientAt(i)) {
      assert Stands(m, TopLevel, m);
      assert "tokens" in m ==> Stands(m, Tokens, m["tokens"].entries);
      assert forall j :: 0 <= j < i ==> Stands(m, ClientAt(j), ms[j]);
    }
    if Faultless(m, TopLevel) && TokensFaultless(m) && ClientsFaultless(ms, i) {
      forall q, u | ReadBefore(q, ClientAt(i)) && Stands(m, q, u) ensures Faultless(u, q) {
        assert q.ClientAt? ==> u == ms[q.i];
      }
    }
  }

  lemma BeforePersona(m: Table, i: nat)
    requires IsTables(m, "clients") && IsTables(m, "personas")
    requires i < |TablesAt(m, "personas")| && ("tokens" in m ==> m["tokens"].Map?)
    ensures FineBefore(m, PersonaAt(i)) <==>
            && Faultless(m, TopLevel) && TokensFaultless(m)
            && ClientsFaultless(TablesAt(m, "clients"), |TablesAt(m, "clients")|)
            && PersonasFaultless(TablesAt(m, "personas"), i)
  {
    hide Faultless;
    var cs, ps := TablesAt(m, "clients"), TablesAt(m, "personas");
    if FineBefore(m, PersonaAt(i)) {
      assert Stands(m, TopLevel, m);
      assert "tokens" in m ==> Stands(m, Tokens, m["tokens"].entries);
      assert forall j :: 0 <= j < |cs| ==> Stands(m, ClientAt(j), cs[j]);
      assert forall j :: 0 <= j < i ==> Stands(m, PersonaAt(j), ps[j]);
    }
    if Faultless(m, TopLevel) && TokensFaultless(m) && ClientsFaultless(cs, |cs|) && PersonasFaultless(ps, i) {
      forall q, u | ReadBefore(q, PersonaAt(i)) && Stands(m, q, u) ensures Faultless(u, q) {
        assert q.ClientAt? ==> u == cs[q.i];
        assert q.PersonaAt? ==> u == ps[q.i];
      }
    }
  }

  lemma BeforeTokens(m: Table)
    ensures FineBefore(m, TopLevel)
    ensures FineBefore(m, Tokens) <==> Faultless(m, TopLevel)
  {
    hide Faultless;
    assert Stands(m, TopLevel, m);
  }

  /** The first fault of the file is this one, in the table at this place. */
  ghost predicate FaultAt(m: Table, place: Where, p: Problem) {
    exists t :: FirstFault(m, place, t, p)
  }

  lemma ClientFaultAt(m: Table, i: nat, p: Problem)
    requires IsTables(m, "clients") && ("tokens" in m ==> m["tokens"].Map?)
    ensures FaultAt(m, ClientAt(i), p) <==>
            Faultless(m, TopLevel) && TokensFaultless(m) && ClientFault(TablesAt(m, "clients"), i, p)
  {
    hide Faultless;
    hide FaultOf;
    hide TokensFaultless;
    var ms := TablesAt(m, "clients");
    if i < |ms| {
      BeforeClient(m, i);
      hide FineBefore;
      assert Stands(m, ClientAt(i), ms[i]);
      assert forall t :: Stands(m, ClientAt(i), t) ==> t == ms[i];
      assert FaultAt(m, ClientAt(i), p) <==> FirstFault(m, ClientAt(i), ms[i], p);
    } else {
      assert forall t :: !Stands(m, ClientAt(i), t);
    }
  }

  lemma PersonaFaultAt(m: Table, i: nat, p: Problem)
    requires IsTables(m, "clients") && IsTables(m, "personas") && ("tokens" in m ==> m["tokens"].Map?)
    ensures FaultAt(m, PersonaAt(i), p) <==>
            && Faultless(m, TopLevel) && TokensFaultless(m)
            && ClientsFaultless(TablesAt(m, "clients"), |TablesAt(m, "clients")|)
            && PersonaFault(TablesAt(m, "personas"), i, p)
  {
    hide Faultless;
    hide FaultOf;
    hide TokensFaultless;
    var ms := TablesAt(m, "personas");
    if i < |ms| {
      BeforePersona(m, i);
      hide FineBefore;
      assert Stands(m, PersonaAt(i), ms[i]);
      assert forall t :: Stands(m, PersonaAt(i), t) ==> t == ms[i];
      assert FaultAt(m, PersonaAt(i), p) <==> FirstFault(m, PersonaAt(i), ms[i], p);
    } else {
      assert forall t :: !Stands(m, PersonaAt(i), t);
    }
  }

  lemma TopFaultAt(m: Table, p: Problem)
    requires "tokens" in m ==> m["tokens"].Map?
    ensures FaultAt(m, TopLevel, p) <==> FaultOf(m, TopLevel, p)
    ensures FaultAt(m, Tokens, p) <==>
            Faultless(m, TopLevel) && "tokens" in m && FaultOf(m["tokens"].entries, Tokens, p)
  {
    hide Faultless;
    hide FaultOf;
    BeforeTokens(m);
    hide FineBefore;
    assert FaultAt(m, TopLevel, p) <==> FirstFault(m, TopLevel, m, p);
    if "tokens" in m {
      var t := m["tokens"].entries;
      assert FaultAt(m, Tokens, p) <==> FirstFault(m, Tokens, t, p);
    }
  }

  lemma ProblemsHead(m: Table, p: Problem)
    requires IsTables(m, "clients") && IsTables(m, "personas") && ("tokens" in m ==> m["tokens"].Map?)
    ensures Heads(Problems(m), p) <==> exists place :: FaultAt(m, place, p)
  {
    var top, tokens := Own(m, TopLevel), TokensProblems(m);
    var cts, pts := TablesAt(m, "clients"), TablesAt(m, "personas");
    var clients, personas := ClientsProblems(cts), PersonasProblems(pts);
    JoinHeads(top, tokens, p);
    JoinHeads(top + tokens, clients, p);
    JoinHeads(top + tokens + clients, personas, p);
    assert Problems(m) == top + tokens + clients + personas;
    hide Problems;
    OwnHeads(m, TopLevel, p);
    OwnFaultless(m, TopLevel);
    TokensHead(m, p);
    hide Own;
    hide TokensProblems;
    hide Faultless;
    hide FaultOf;
    ClientsHead(cts, p);
    PersonasHead(pts, p);
    hide ClientsProblems;
    hide PersonasProblems;
    TopFaultAt(m, p);
    forall i: nat ensures FaultAt(m, ClientAt(i), p) <==>
                          Faultless(m, TopLevel) && TokensFaultless(m) && ClientFault(cts, i, p)
    {
      ClientFaultAt(m, i, p);
    }
    forall i: nat
      ensures FaultAt(m, PersonaAt(i), p) <==>
              && Faultless(m, TopLevel) && TokensFaultless(m) && ClientsFaultless(cts, |cts|) && PersonaFault(pts, i, p)
    {
      PersonaFaultAt(m, i, p);
    }
    hide TokensFaultless;
    hide TablesAt;
    hide IsTables;
    hide FaultAt;
    hide ClientFault;
    hide PersonaFault;
    hide Heads;
    PlacesSplit(m, p);
  }

  lemma PlacesSplit(m: Table, p: Problem)
    ensures (exists place :: FaultAt(m, place, p)) <==>
            || FaultAt(m, TopLevel, p) || FaultAt(m, Tokens, p)
            || (exists i: nat :: FaultAt(m, ClientAt(i), p)) || (exists i: nat :: FaultAt(m, PersonaAt(i), p))
  {
    hide FaultAt;
    if place :| FaultAt(m, place, p) {
      match place
      case TopLevel =>
      case Tokens =>
      case ClientAt(i) => assert FaultAt(m, ClientAt(i), p);
      case PersonaAt(i) => assert FaultAt(m, PersonaAt(i), p);
    }
  }

  lemma TokensHead(m: Table, p: Problem)
    requires "tokens" in m ==> m["tokens"].Map?
    ensures TokensProblems(m) == [] <==> TokensFaultless(m)
    ensures Heads(TokensProblems(m), p) <==> "tokens" in m && FaultOf(m["tokens"].entries, Tokens, p)
  {
    if "tokens" in m {
      OwnFaultless(TokensOf(m), Tokens);
      OwnHeads(TokensOf(m), Tokens, p);
    }
    hide FaultOf;
    hide Faultless;
    hide TokenProblems;
  }

  /** A tree whose reading is not ended is refused for its first type error, in the order the file
      is read. */
  lemma FaultRefused(m: Table, lib: Library, p: Problem)
    ensures LoadsAs(Err(Decode(p)), m, lib) <==>
            Immediate(m, lib).None? && exists place :: FaultAt(m, place, p)
  {
    if Immediate(m, lib).None? {
      ProblemsHead(m, p);
    }
    NeverDecodes(m, lib);
    hide FaultAt;
    hide Problems;
    hide Immediate;
    hide Read;
    hide Checked;
    hide Reported;
  }

  lemma NeverDecodes(m: Table, lib: Library)
    ensures Immediate(m, lib).Some? ==>
              var e := Immediate(m, lib).value;
              !e.Syntax? && !e.Decode? && !e.Validation?
  {
  }

  /** ... and a tree that describes a configuration is refused for what validation reports of it. */
  lemma ValidationRefused(m: Table, lib: Library, e: Invalid)
    ensures LoadsAs(Err(Validation(e)), m, lib) <==>
            exists c :: Describes(m, c, lib) && Reported(c, lib, e)
  {
    NeverDecodes(m, lib);
    forall c ensures Describes(m, c, lib) <==> Immediate(m, lib).None? && Problems(m) == [] && Read(m, lib) == c {
      ReadExactly(m, c, lib);
    }
    if Immediate(m, lib).None? && Reported(Read(m, lib), lib, e) {
      ReportedIsInvalid(Read(m, lib), lib, e);
    }
    hide Describes;
    hide Immediate;
    hide Problems;
    hide Read;
    hide Checked;
    hide Reported;
  }

  // ----- writing a configuration -----

  function Text(s: string): Tree {
    Leaf(Str(s))
  }

  function Texts(ss: seq<string>): Tree {
    Arr(seq(|ss|, i requires 0 <= i < |ss| => Leaf(Str(ss[i]))))
  }

  function ClientTable(c: Client): Table {
    map["client_id" := Text(c.id), "client_secret" := Text(c.secret), "redirect_uris" := Texts(c.redirectURIs)]
  }

  function PersonaTable(p: Persona): Table {
    map["name" := Text(p.name), "subject" := Text(p.subject), "email" := Text(p.email),
        "email_verified" := Leaf(Bool(p.emailVerified)), "groups" := Texts(p.groups)]
    + if p.claims == map[] then map[] else map["claims" := Map(p.claims)]
  }

  /** The tree that is written for a configuration, with a text for its lifetime and its time. */
  function TreeOf(c: Config, ttl: string, at: string): Table {
    map["issuer" := Text(c.issuer), "seed" := Text(c.seed),
        "tokens" := Map(map["algorithm" := Text(c.algorithm), "ttl" := Text(ttl), "issued_at" := Text(at),
                            "rsa_key_file" := Text(c.rsaKeyFile)]),
        "clients" := Arr(seq(|c.clients|, i requires 0 <= i < |c.clients| => Map(ClientTable(c.clients[i])))),
        "personas" := Arr(seq(|c.personas|, i requires 0 <= i < |c.personas| => Map(PersonaTable(c.personas[i]))))]
  }

  lemma ClientDescribed(c: Client)
    ensures DescribesClient(ClientTable(c), c)
  {
  }

  lemma PersonaDescribed(p: Persona)
    ensures DescribesPersona(PersonaTable(p), p)
  {
  }

  lemma TokensDescribed(c: Config, ttl: string, at: string, lib: Library)
    requires TtlText(lib, ttl, c.ttl) && TimeText(lib, at, c.issuedAt)
    ensures DescribesTokens(TreeOf(c, ttl, at)["tokens"].entries, c, lib)
  {
    hide TtlText;
    hide TimeText;
    var tt := TreeOf(c, ttl, at)["tokens"].entries;
    assert HoldsString(tt, "ttl", ttl, "") && HoldsString(tt, "issued_at", at, "");
  }

  lemma TreeDescribes(c: Config, ttl: string, at: string, lib: Library)
    requires TtlText(lib, ttl, c.ttl) && TimeText(lib, at, c.issuedAt)
    ensures Describes(TreeOf(c, ttl, at), c, lib)
  {
    TokensDescribed(c, ttl, at, lib);
    forall x ensures DescribesClient(ClientTable(x), x) {
      ClientDescribed(x);
    }
    forall x ensures DescribesPersona(PersonaTable(x), x) {
      PersonaDescribed(x);
    }
    hide TtlText;
    hide TimeText;
    hide DescribesTokens;
    hide DescribesClient;
    hide DescribesPersona;
    hide ClientTable;
    hide PersonaTable;
  }

  // ----- the file of a configuration -----

  lemma TextsPlain(ss: seq<string>)
    ensures NoTables(Texts(ss)) && Writable(Texts(ss))
  {
    var xs := Texts(ss).elems;
    forall i | 0 <= i < |xs| ensures NoTables(xs[i]) && Writable(xs[i]) {
    }
  }

  /** Claims that a file can hold: 64-bit integers and floats in clean form. */
  predicate WritableClaims(p: Persona) {
    forall k :: k in p.claims ==> Writable(p.claims[k])
  }

  lemma FlatPlain(v: Tree)
    requires FlatClaim(v)
    ensures NoTables(v)
  {
  }

  lemma ClaimsBody(p: Persona)
    requires CheckedPersona(p) && WritableClaims(p) && p.claims != map[]
    ensures IsBody(Map(p.claims)) && Writable(Map(p.claims)) && Map(p.claims) != NO_ENTRIES
  {
    hide Writable;
    forall k | k in p.claims ensures NoTables(p.claims[k]) {
      assert CheckedClaim(k, p.claims[k]);
      FlatPlain(p.claims[k]);
    }
    WritableEntries(p.claims);
  }

  lemma WritableEntries(m: Table)
    requires forall k :: k in m ==> Writable(m[k])
    ensures Writable(Map(m))
  {
  }

  lemma PersonaBody(p: Persona)
    requires CheckedPersona(p) && WritableClaims(p)
    ensures IsBody(Map(PersonaTable(p))) && Writable(Map(PersonaTable(p)))
  {
    TextsPlain(p.groups);
    if p.claims != map[] {
      ClaimsBody(p);
    }
    hide Texts;
    var t := PersonaTable(p);
    forall k | k in t ensures NoTables(t[k]) || (IsBody(t[k]) && t[k] != NO_ENTRIES) {
    }
    forall k | k in t ensures Writable(t[k]) {
    }
    WritableEntries(t);
  }

  lemma ClientBody(c: Client)
    ensures IsBody(Map(ClientTable(c))) && Writable(Map(ClientTable(c)))
  {
    TextsPlain(c.redirectURIs);
    hide Texts;
    var t := ClientTable(c);
    forall k | k in t ensures NoTables(t[k]) && Writable(t[k]) {
    }
    WritableEntries(t);
  }

  lemma ArraySection(xs: seq<Tree>)
    requires xs != [] && forall i :: 0 <= i < |xs| ==> IsBody(xs[i]) && Writable(xs[i])
    ensures IsSection(Arr(xs)) && Writable(Arr(xs))
  {
    hide IsBody;
    assert Writable(Arr(xs)) by { hide NoTables; }
    hide Writable;
  }

  lemma TokensSection(c: Config, ttl: string, at: string)
    ensures IsSection(TreeOf(c, ttl, at)["tokens"]) && Writable(TreeOf(c, ttl, at)["tokens"])
  {
    var tt := TreeOf(c, ttl, at)["tokens"].entries;
    forall k | k in tt ensures NoTables(tt[k]) && Writable(tt[k]) {
    }
    WritableEntries(tt);
  }

  lemma TreeWritable(c: Config, ttl: string, at: string, lib: Library)
    requires Checked(c, lib) && forall p :: p in c.personas ==> WritableClaims(p)
    ensures ConfigShaped(Map(TreeOf(c, ttl, at))) && Writable(Map(TreeOf(c, ttl, at)))
  {
    var t := TreeOf(c, ttl, at);
    assert c.clients != [] && c.personas != [] && forall i :: 0 <= i < |c.personas| ==> CheckedPersona(c.personas[i]);
    hide Checked;
    hide CheckedPersona;
    hide WritableClaims;
    hide ClientTable;
    hide PersonaTable;
    hide IsBody;
    var cs, ps := t["clients"].elems, t["personas"].elems;
    forall i | 0 <= i < |cs| ensures IsBody(cs[i]) && Writable(cs[i]) {
      ClientBody(c.clients[i]);
    }
    forall i | 0 <= i < |ps| ensures IsBody(ps[i]) && Writable(ps[i]) {
      PersonaBody(c.personas[i]);
    }
    ArraySection(cs);
    ArraySection(ps);
    TokensSection(c, ttl, at);
    TextSection(c.issuer);
    TextSection(c.seed);
    hide IsSection;
    hide Writable;
    forall k | k in t ensures IsSection(t[k]) && Writable(t[k]) {
    }
    WritableEntries(t);
  }

  lemma TextSection(s: string)
    ensures IsSection(Text(s)) && Writable(Text(s))
  {
  }

  /** The file of a configuration is the printed tree, and loading it gives the configuration: for
      every configuration that passes validation, with texts for its lifetime and its time and
      claims that a file can hold. */
  lemma FileRoundTrip(c: Config, ttl: string, at: string, lib: Library)
    requires Checked(c, lib) && forall p :: p in c.personas ==> WritableClaims(p)
    requires TtlText(lib, ttl, c.ttl) && TimeText(lib, at, c.issuedAt)
    ensures ConfigShaped(Map(TreeOf(c, ttl, at))) && Writable(Map(TreeOf(c, ttl, at)))
    ensures ParseDoc(Print(Map(TreeOf(c, ttl, at)))) == Ok(Map(TreeOf(c, ttl, at)))
    ensures forall r :: LoadsAs(r, TreeOf(c, ttl, at), lib) <==> r == Ok(c)
  {
    TreeWritable(c, ttl, at, lib);
    hide Checked;
    hide TreeOf;
    hide ParseDoc;
    hide Print;
    hide ConfigShaped;
    hide Writable;
    hide LoadsAs;
    hide TtlText;
    hide TimeText;
    RoundTrip(Map(TreeOf(c, ttl, at)));
    TreeDescribes(c, ttl, at, lib);
    forall r ensures LoadsAs(r, TreeOf(c, ttl, at), lib) <==> r == Ok(c) {
      LoadsOnly(TreeOf(c, ttl, at), c, lib, r);
    }
  }
}
