/** Identifier quoting as `psycopg2.sql.Identifier` renders it: the name in double quotes, each
    double quote inside it doubled. */
module SqlIdentifier {
  import opened Outcomes

  /** The body of the quoted form: each double quote doubled. */
  function Escape(name: string): string
  {
    if name == [] then [] else (if name[0] == '"' then "\"\"" else [name[0]]) + Escape(name[1..])
  }

  /** Escaping only ever lengthens a name, and a name without double quotes is its own body. */
  lemma {:induction false} EscapeSpec(name: string)
    ensures |name| <= |Escape(name)|
    ensures (forall k :: 0 <= k < |name| ==> name[k] != '"') ==> Escape(name) == name
  {
    if name != [] {
      EscapeSpec(name[1..]);
      if forall k :: 0 <= k < |name| ==> name[k] != '"' {
        assert forall k :: 0 <= k < |name[1..]| ==> name[1..][k] != '"' by {
          forall k | 0 <= k < |name[1..]| ensures name[1..][k] != '"' {
            assert name[1..][k] == name[k + 1];
          }
        }
        assert name == [name[0]] + name[1..];
      }
    }
  }

  /** The quoted form of `name`. */
  function Quote(name: string): (q: string)
    ensures |q| >= 2 && q[0] == '"' && q[|q| - 1] == '"'
  {
    "\"" + Escape(name) + "\""
  }

  /** How SQL reads the body of a quoted identifier: up to the first lone double quote, a doubled
      one standing for one character; the result is the name and the text after the closing quote. */
  function ReadBody(s: string): Option<(string, string)>
  {
    if s == [] then None
    else if s[0] == '"' then
      if |s| > 1 && s[1] == '"' then
        match ReadBody(s[2..])
        case None => None
        case Some(r) => Some(("\"" + r.0, r.1))
      else Some(([], s[1..]))
    else
      match ReadBody(s[1..])
      case None => None
      case Some(r) => Some(([s[0]] + r.0, r.1))
  }

  /** Reads a quoted identifier at the start of `s`. */
  function ReadQuoted(s: string): Option<(string, string)>
  {
    if s != [] && s[0] == '"' then ReadBody(s[1..]) else None
  }

  lemma {:induction false} ReadBodyEscape(name: string, rest: string)
    requires rest == [] || rest[0] != '"'
    ensures ReadBody(Escape(name) + "\"" + rest) == Some((name, rest))
    decreases |name|
  {
    if name == [] {
      assert Escape(name) + "\"" + rest == "\"" + rest;
    } else {
      ReadBodyEscape(name[1..], rest);
      var tail := Escape(name[1..]) + "\"" + rest;
      if name[0] == '"' {
        assert Escape(name) + "\"" + rest == "\"\"" + tail;
        assert ("\"\"" + tail)[2..] == tail;
      } else {
        assert Escape(name) + "\"" + rest == [name[0]] + tail;
        assert ([name[0]] + tail)[1..] == tail;
      }
      assert [name[0]] + name[1..] == name;
    }
  }

  /** A quoted name reads back as exactly that name, and the text after it stays outside it, so
      no table or column name can extend into the rest of a statement. */
  lemma QuoteRoundTrip(name: string, rest: string)
    requires rest == [] || rest[0] != '"'
    ensures ReadQuoted(Quote(name) + rest) == Some((name, rest))
  {
    ReadBodyEscape(name, rest);
    assert (Quote(name) + rest)[1..] == Escape(name) + "\"" + rest;
  }

  /** Distinct names never render to the same quoted text. */
  lemma QuoteInjective(a: string, b: string)
    requires Quote(a) == Quote(b)
    ensures a == b
  {
    QuoteRoundTrip(a, []);
    QuoteRoundTrip(b, []);
    assert Quote(a) + [] == Quote(b) + [];
  }

}
