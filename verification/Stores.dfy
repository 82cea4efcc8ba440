/** Grant storage: single-use codes and rotating refresh tokens, named by a counter. */
module Stores {
  import opened Prelude
  import opened Issuers
  import Numerals

  datatype Grant = Grant(clientID: string, redirectURI: string, persona: string, nonce: string,
                         scope: seq<string>, challenge: string, challengeMethod: string)

  datatype Kind = Code | Refresh

  function Prefix(k: Kind): string {
    match k case Code => "pc" case Refresh => "pr"
  }

  /** The credential handed out as number `n`. */
  function Credential(pl: Platform, seed: string, k: Kind, n: nat): (s: string)
    requires ProperPlatform(pl)
    ensures |s| == 35
  {
    var text := "personad-" + Prefix(k) + "-v1:" + seed + ":" + Numerals.Decimal(n);
    Prefix(k) + "_" + HexText(pl.sha256(text))[..32]
  }

  /** Codes and refresh tokens never coincide. */
  lemma KindsDiffer(pl: Platform, seed: string, m: nat, n: nat)
    requires ProperPlatform(pl)
    ensures Credential(pl, seed, Code, m) != Credential(pl, seed, Refresh, n)
  {
    var c, r := Credential(pl, seed, Code, m), Credential(pl, seed, Refresh, n);
    assert c[1] == 'c' && r[1] == 'r';
  }

  /** What a credential is the hash of. */
  function CredentialText(seed: string, k: Kind, n: nat): string {
    "personad-" + (if k == Code then "pc" else "pr") + "-v1:" + seed + ":" + Numerals.Decimal(n)
  }

  /** Different kinds, seeds and numbers have different texts, whatever the seed holds. */
  lemma CredentialTextExactly(seed: string, k: Kind, n: nat, seed': string, k': Kind, n': nat)
    ensures CredentialText(seed, k, n) == CredentialText(seed', k', n') <==> seed == seed' && k == k' && n == n'
  {
    hide Numerals.Decimal;
    var d, d' := Numerals.Decimal(n), Numerals.Decimal(n');
    var t, t' := CredentialText(seed, k, n), CredentialText(seed', k', n');
    var a := "personad-" + (if k == Code then "pc" else "pr") + "-v1:" + seed;
    var a' := "personad-" + (if k' == Code then "pc" else "pr") + "-v1:" + seed';
    assert t == a + (":" + d) && t' == a' + (":" + d');
    if t == t' {
      Numerals.DecimalChars(n);
      Numerals.DecimalChars(n');
      CutLast(a, d, a', d', ':');
      Numerals.DecimalInjective(n, n');
      assert a[10] == (if k == Code then 'c' else 'r') && a'[10] == (if k' == Code then 'c' else 'r');
      assert a[15..] == seed && a'[15..] == seed';
    }
  }

  /** Credentials of one kind are equal exactly for the same seed and number, unless the truncated
      hash collides; and the kind shows in the first two characters. */
  lemma CredentialExactly(pl: Platform, k: Kind, seed: string, n: nat, seed': string, n': nat)
    requires ProperPlatform(pl)
    ensures Credential(pl, seed, k, n)[..3] == if k == Code then "pc_" else "pr_"
    ensures Credential(pl, seed, k, n) == Credential(pl, seed', k, n') <==>
            (seed == seed' && n == n') || Collide(pl, 16, CredentialText(seed, k, n), CredentialText(seed', k, n'))
  {
    hide Numerals.Decimal;
    hide HexText;
    var x, x' := CredentialText(seed, k, n), CredentialText(seed', k, n');
    CredentialTextExactly(seed, k, n, seed', k, n');
    HashesDiffer(pl, 16, x, x');
    var h, h' := HexText(pl.sha256(x))[..32], HexText(pl.sha256(x'))[..32];
    var p := if k == Code then "pc_" else "pr_";
    assert Credential(pl, seed, k, n) == p + h && Credential(pl, seed', k, n') == p + h';
    assert (p + h)[3..] == h && (p + h')[3..] == h';
  }

  /** The contents of a store. */
  datatype Contents = Contents(issued: nat, codes: map<string, Grant>, refresh: map<string, Grant>)

  const EMPTY := Contents(0, map[], map[])

  class Store {
    const seed: string
    const pl: Platform
    var counter: nat
    var codes: map<string, Grant>
    var refresh: map<string, Grant>

    ghost predicate Valid() {
      ProperPlatform(pl)
    }

    function State(): Contents
      reads this
    {
      Contents(counter, codes, refresh)
    }

    constructor (seed: string, pl: Platform)
      requires ProperPlatform(pl)
      ensures Valid() && State() == EMPTY && this.seed == seed && this.pl == pl
    {
      this.seed, this.pl := seed, pl;
      counter, codes, refresh := 0, map[], map[];
    }

    method Next(k: Kind) returns (s: string)
      requires Valid()
      modifies `counter
      ensures counter == old(counter) + 1 && s == Credential(pl, seed, k, counter)
    {
      counter := counter + 1;
      s := Credential(pl, seed, k, counter);
    }

    method NewCode(g: Grant) returns (code: string)
      requires Valid()
      modifies this
      ensures State() == AfterNewCode(old(State()), pl, seed, g)
      ensures code == Credential(pl, seed, Code, old(counter) + 1)
    {
      code := Next(Code);
      codes := codes[code := g];
    }

    method TakeCode(code: string) returns (g: Option<Grant>)
      modifies this
      ensures State() == AfterTakeCode(old(State()), code)
      ensures g == Find(old(codes), code)
    {
      g := Find(codes, code);
      if g.Some? {
        codes := codes - {code};
      }
    }

    method NewRefresh(g: Grant) returns (token: string)
      requires Valid()
      modifies this
      ensures State() == AfterNewRefresh(old(State()), pl, seed, g)
      ensures token == Credential(pl, seed, Refresh, old(counter) + 1)
    {
      token := Next(Refresh);
      refresh := refresh[token := g];
    }

    method TakeRefresh(token: string) returns (g: Option<Grant>)
      modifies this
      ensures State() == AfterTakeRefresh(old(State()), token)
      ensures g == Find(old(refresh), token)
    {
      g := Find(refresh, token);
      if g.Some? {
        refresh := refresh - {token};
      }
    }
  }

  function Find<V>(m: map<string, V>, k: string): Option<V> {
    if k in m then Some(m[k]) else None
  }

  function AfterNewCode(s: Contents, pl: Platform, seed: string, g: Grant): Contents
    requires ProperPlatform(pl)
  {
    s.(issued := s.issued + 1, codes := s.codes[Credential(pl, seed, Code, s.issued + 1) := g])
  }

  /** Removing an unknown code changes nothing. */
  function AfterTakeCode(s: Contents, code: string): Contents {
    s.(codes := s.codes - {code})
  }

  function AfterNewRefresh(s: Contents, pl: Platform, seed: string, g: Grant): Contents
    requires ProperPlatform(pl)
  {
    s.(issued := s.issued + 1, refresh := s.refresh[Credential(pl, seed, Refresh, s.issued + 1) := g])
  }

  function AfterTakeRefresh(s: Contents, token: string): Contents {
    s.(refresh := s.refresh - {token})
  }
}
