/** Agent identifiers of the form `agent://<owner>/<name>#<kid>`. */
module AgentUri {
  import opened Wrappers

  const SCHEME := "agent://"

  function AgentUri(owner: string, name: string, kid: string): string {
    SCHEME + owner + "/" + name + "#" + kid
  }

  datatype IdentityError = NotAgentUri | MissingKid | MissingName

  /** The text before and after the first `d`. */
  function Cut(s: string, d: char): (r: Option<(string, string)>)
    ensures r.None? <==> d !in s
    ensures r.Some? ==> d !in r.value.0 && s == r.value.0 + [d] + r.value.1
  {
    if s == [] then None
    else if s[0] == d then
      assert s == "" + [d] + s[1..];
      Some(("", s[1..]))
    else
      match Cut(s[1..], d)
      case None => None
      case Some((before, after)) =>
        assert s == [s[0]] + s[1..] == ([s[0]] + before) + [d] + after;
        Some(([s[0]] + before, after))
  }

  function ParseAgentUri(uri: string): Result<(string, string, string), IdentityError> {
    if !(SCHEME <= uri) then Raise(NotAgentUri)
    else
      match Cut(uri[|SCHEME|..], '#')
      case None => Raise(MissingKid)
      case Some((body, kid)) =>
        match Cut(body, '/')
        case None => Raise(MissingName)
        case Some((owner, name)) => Ok((owner, name, kid))
  }

  lemma {:induction false} CutUnique(p: string, d: char, s: string)
    requires d !in p
    ensures Cut(p + [d] + s, d) == Some((p, s))
  {
    var t := p + [d] + s;
    if p == [] {
      assert t[1..] == s;
    } else {
      assert t[1..] == p[1..] + [d] + s;
      CutUnique(p[1..], d, s);
      assert p == [p[0]] + p[1..];
    }
  }

  /** Parsing undoes printing exactly for owners without `/` and `#` and names without `#`. */
  lemma ParsePrint(owner: string, name: string, kid: string)
    ensures ParseAgentUri(AgentUri(owner, name, kid)) == Ok((owner, name, kid))
            <==> '/' !in owner && '#' !in owner && '#' !in name
  {
    var uri := AgentUri(owner, name, kid);
    var body := owner + ['/'] + name;
    assert uri[|SCHEME|..] == body + ['#'] + kid;
    if '/' !in owner && '#' !in owner && '#' !in name {
      CutUnique(body, '#', kid);
      CutUnique(owner, '/', name);
    }
  }

  /** Printing a parsed identifier gives the text that was parsed; only well-formed text parses. */
  lemma PrintParse(uri: string)
    ensures ParseAgentUri(uri).Ok? ==>
              var (owner, name, kid) := ParseAgentUri(uri).value;
              AgentUri(owner, name, kid) == uri && '/' !in owner && '#' !in owner && '#' !in name
  {
    if ParseAgentUri(uri).Ok? {
      var (owner, name, kid) := ParseAgentUri(uri).value;
      var rest := uri[|SCHEME|..];
      var body := Cut(rest, '#').value.0;
      assert body == owner + ['/'] + name && rest == body + ['#'] + kid;
      assert uri == SCHEME + rest;
    }
  }

  /** Well-formed owners and names make identifiers collision-free. */
  lemma PrintInjective(o1: string, n1: string, k1: string, o2: string, n2: string, k2: string)
    requires '/' !in o1 && '#' !in o1 && '#' !in n1
    requires '/' !in o2 && '#' !in o2 && '#' !in n2
    requires AgentUri(o1, n1, k1) == AgentUri(o2, n2, k2)
    ensures o1 == o2 && n1 == n2 && k1 == k2
  {
    ParsePrint(o1, n1, k1);
    ParsePrint(o2, n2, k2);
  }
}
