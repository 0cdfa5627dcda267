/** The text of the statement `apply_domain` (`minall/enrichment/utils.py`)
    hands to SQLite, and how SQLite reads it back. The source splices the
    domain and the URL between single quotes without escaping them, so a URL
    holding a quote ends its literal early and the statement is no longer the
    intended update. Quoting as SQL prescribes, a quote inside a literal
    doubled, reads back every value; binding the two values as parameters,
    which `SQLiteWrapper` supports, comes to the same, and the table model
    (`Domains.SetDomain`) runs the update on the values themselves. */
module DomainQuery {
  import opened Wrappers
  import opened Store
  import opened Domains
  import PyText

  /** The statement's text up to the opening quote of the domain. */
  const Open: string := "UPDATE links SET domain = '"
  /** The text between the domain's closing quote and the URL's opening one. */
  const Link: string := " WHERE url = '"

  /** The statement as written: each value between quotes, unescaped. */
  function Statement(u: DomainUpdate): string {
    Open + u.domain + "'" + Link + u.url + "'"
  }

  /** A text literal's body: each quote doubled. */
  function Escape(s: string): (r: string)
    ensures |r| >= |s|
    ensures '\'' !in s ==> r == s
    decreases |s|
  {
    if |s| == 0 then ""
    else (if s[0] == '\'' then "''" else [s[0]]) + Escape(s[1..])
  }

  /** The statement with its literals escaped. */
  function EscapedStatement(u: DomainUpdate): string {
    Open + Escape(u.domain) + "'" + Link + Escape(u.url) + "'"
  }

  /** SQLite's reading of a text literal whose opening quote is already
      consumed: characters up to the first quote that is not doubled, a
      doubled quote standing for one. The value and the text after the
      closing quote, or `None` when the literal is never closed. */
  function ReadLiteral(s: string): (r: Option<(string, string)>)
    ensures r.Some? ==> |r.value.1| < |s|
    decreases |s|
  {
    if |s| == 0 then None
    else if s[0] == '\'' then
      if |s| > 1 && s[1] == '\'' then
        match ReadLiteral(s[2..])
        case None => None
        case Some((v, rest)) => Some(("'" + v, rest))
      else Some(("", s[1..]))
    else
      match ReadLiteral(s[1..])
      case None => None
      case Some((v, rest)) => Some(([s[0]] + v, rest))
  }

  /** The text after `pre` when `q` starts with it. */
  function After(q: string, pre: string): (r: Option<string>)
    ensures r.Some? ==> q == pre + r.value
  {
    if |pre| <= |q| && q[..|pre|] == pre then
      assert q == q[..|pre|] + q[|pre|..];
      Some(q[|pre|..])
    else None
  }

  lemma AfterPrefix(pre: string, s: string)
    ensures After(pre + s, pre) == Some(s)
  {
    assert (pre + s)[..|pre|] == pre;
    assert (pre + s)[|pre|..] == s;
  }

  /** The update SQLite performs for a statement of the expected shape, or
      `None` when the text is not that update (a syntax error, or a
      different statement). */
  function ParseStatement(q: string): Option<DomainUpdate> {
    match After(q, Open)
    case None => None
    case Some(body) =>
      match ReadLiteral(body)
      case None => None
      case Some((d, rest)) =>
        match After(rest, Link)
        case None => None
        case Some(body2) =>
          match ReadLiteral(body2)
          case Some((url, tail)) => if tail == "" then Some(DomainUpdate(url, d)) else None
          case None => None
  }

  /** A doubled quote reads as one quote of the value. */
  lemma ReadDoubled(tail: string)
    requires ReadLiteral(tail).Some?
    ensures ReadLiteral("''" + tail) == Some(("'" + ReadLiteral(tail).value.0, ReadLiteral(tail).value.1))
  {
    assert ("''" + tail)[2..] == tail;
  }

  /** Any other character is part of the value. */
  lemma ReadPlain(c: char, tail: string)
    requires c != '\'' && ReadLiteral(tail).Some?
    ensures ReadLiteral([c] + tail) == Some(([c] + ReadLiteral(tail).value.0, ReadLiteral(tail).value.1))
  {
    assert ([c] + tail)[1..] == tail;
  }

  /** A lone quote closes the literal. */
  lemma ReadClose(rest: string)
    requires rest == "" || rest[0] != '\''
    ensures ReadLiteral("'" + rest) == Some(("", rest))
  {
    assert ("'" + rest)[1..] == rest;
  }

  /** An escaped text followed by more text, split after its first
      character's escape. */
  lemma EscapeHead(s: string, rest: string)
    requires |s| > 0
    ensures Escape(s) + "'" + rest == (if s[0] == '\'' then "''" else [s[0]]) + (Escape(s[1..]) + "'" + rest)
  {
    var head := if s[0] == '\'' then "''" else [s[0]];
    var e := Escape(s[1..]);
    assert Escape(s) == head + e;
    Associate(head, e, "'", rest);
  }

  lemma Associate(a: string, b: string, c: string, d: string)
    ensures a + b + c + d == a + (b + c + d)
  {
  }

  /** One step of reading an escaped literal: its first character's escape
      reads back as that character. */
  lemma ReadEscapedStep(s: string, rest: string)
    requires |s| > 0
    requires ReadLiteral(Escape(s[1..]) + "'" + rest) == Some((s[1..], rest))
    ensures ReadLiteral(Escape(s) + "'" + rest) == Some((s, rest))
  {
    var tail := Escape(s[1..]) + "'" + rest;
    EscapeHead(s, rest);
    if s[0] == '\'' {
      assert Escape(s) + "'" + rest == "''" + tail;
      ReadDoubled(tail);
      assert "'" + s[1..] == s;
    } else {
      assert Escape(s) + "'" + rest == [s[0]] + tail;
      ReadPlain(s[0], tail);
      assert [s[0]] + s[1..] == s;
    }
  }

  /** An escaped literal reads back as its value, whatever follows it as
      long as that does not start with a quote. */
  lemma {:induction false} ReadEscaped(s: string, rest: string)
    requires rest == "" || rest[0] != '\''
    ensures ReadLiteral(Escape(s) + "'" + rest) == Some((s, rest))
    decreases |s|
  {
    if |s| == 0 {
      assert Escape(s) + "'" + rest == "'" + rest;
      ReadClose(rest);
    } else {
      ReadEscaped(s[1..], rest);
      ReadEscapedStep(s, rest);
    }
  }

  /** The statement's pieces, regrouped from the right. */
  lemma Regroup(o: string, d: string, q: string, l: string, u: string)
    ensures o + d + q + l + u + q == o + (d + q + (l + (u + q + "")))
  {
  }

  /** The escaped statement reads back as the update it was built from. */
  lemma EscapedRoundTrip(u: DomainUpdate)
    ensures ParseStatement(EscapedStatement(u)) == Some(u)
  {
    var d := Escape(u.domain);
    var e := Escape(u.url);
    var rest := Link + (e + "'" + "");
    Regroup(Open, d, "'", Link, e);
    AfterPrefix(Open, d + "'" + rest);
    ReadEscaped(u.domain, rest);
    AfterPrefix(Link, e + "'" + "");
    ReadEscaped(u.url, "");
  }

  /** Without quotes in either value, the statement as written is the
      escaped one, so it runs the intended update. */
  lemma QuoteFreeStatement(u: DomainUpdate)
    requires '\'' !in u.domain && '\'' !in u.url
    ensures Statement(u) == EscapedStatement(u)
    ensures ParseStatement(Statement(u)) == Some(u)
  {
    assert Escape(u.domain) == u.domain && Escape(u.url) == u.url;
    EscapedRoundTrip(u);
  }

  /** A URL with a quote inside: the statement as written ends the URL's
      literal at that quote and leaves the rest of the URL as stray text, so
      SQLite does not run the intended update. */
  lemma StatementMisreads(u: DomainUpdate, a: string, b: string)
    requires '\'' !in u.domain && '\'' !in a
    requires u.url == a + "'" + b && b != "" && b[0] != '\''
    ensures ParseStatement(Statement(u)).None?
  {
    var rest := Link + (u.url + "'" + "");
    Regroup(Open, u.domain, "'", Link, u.url);
    assert Escape(u.domain) == u.domain && Escape(a) == a;
    AfterPrefix(Open, Escape(u.domain) + "'" + rest);
    ReadEscaped(u.domain, rest);
    var body := Escape(a) + "'" + (b + "'");
    Associate(a, "'", b, "'");
    assert u.url + "'" + "" == body;
    AfterPrefix(Link, body);
    ReadEscaped(a, b + "'");
  }

  /** An instance: a French article URL with an apostrophe. */
  lemma ApostropheUrl()
    ensures ParseStatement(Statement(DomainUpdate("https://example.fr/l'article", "example.fr"))).None?
  {
    var a := "https://example.fr/l";
    assert "https://example.fr/l'article" == a + "'" + "article";
    StatementMisreads(DomainUpdate("https://example.fr/l'article", "example.fr"), a, "article");
  }

  /** The domain pass of `Enrichment.__call__` as the source runs it: each
      link's statement text, as written, goes to SQLite. `None` when some
      statement is not an update of the expected shape, which SQLite either
      refuses (`OperationalError`) or runs as a different statement; this
      model does not say which. */
  function DomainPassAsWritten(o: UrlOracle, t: Table, links: seq<string>): (r: Option<Table>)
    requires WellFormed(t) && "domain" in t.columns && "domain" !in t.pk
    ensures r.Some? ==> WellFormed(r.value) && r.value.columns == t.columns && r.value.pk == t.pk
    decreases |links|
  {
    if |links| == 0 then Some(t)
    else
      match DomainPassAsWritten(o, t, links[..|links| - 1])
      case None => None
      case Some(front) =>
        var (query, domain) := ApplyDomain(o, links[|links| - 1]);
        if query.Some? && PyText.Truthy(domain) then
          match ParseStatement(Statement(query.value))
          case None => None
          case Some(u) => Some(SetDomain(front, u))
        else Some(front)
  }

  /** A link that holds no quote and whose domain holds none. */
  predicate QuoteFree(o: UrlOracle, link: string) {
    '\'' !in link && (GetDomain(o, link).Some? ==> '\'' !in GetDomain(o, link).value)
  }

  /** On links without quotes the pass as written is the modelled pass: each
      statement reads back as the update `Domains.DomainStep` runs. */
  lemma {:induction false} QuoteFreePass(o: UrlOracle, t: Table, links: seq<string>)
    requires WellFormed(t) && "domain" in t.columns && "domain" !in t.pk
    requires forall i :: 0 <= i < |links| ==> QuoteFree(o, links[i])
    ensures DomainPassAsWritten(o, t, links) == Some(DomainPass(o, t, links))
    decreases |links|
  {
    if |links| > 0 {
      var n := |links| - 1;
      QuoteFreePass(o, t, links[..n]);
      var (query, domain) := ApplyDomain(o, links[n]);
      if query.Some? {
        QuoteFreeStatement(query.value);
      }
    }
  }

  /** One link with an apostrophe is enough for the pass as written to leave
      the intended updates, whatever the table. */
  lemma ApostrophePass(o: UrlOracle, t: Table)
    requires WellFormed(t) && "domain" in t.columns && "domain" !in t.pk
    requires GetDomain(o, "https://example.fr/l'article") == Some("example.fr")
    ensures DomainPassAsWritten(o, t, ["https://example.fr/l'article"]).None?
  {
    ApostropheUrl();
    assert ["https://example.fr/l'article"][..0] == [];
  }
}
