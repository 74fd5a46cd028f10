/** Header names and values, and the multi-valued header map of a request. */
module HttpHeaders {
  import opened Common

  const PARAM_PREFIX := "Mcp-Param-"

  /** The longest header name that the `http` crate accepts. */
  const MAX_HEADER_NAME_LEN: nat := 65535

  /** A token character (section 5.6.2 of RFC 9110). */
  predicate IsTchar(c: char) {
    || 'a' <= c <= 'z' || 'A' <= c <= 'Z' || '0' <= c <= '9'
    || c in "!#$%&'*+-.^_`|~"
  }

  predicate IsToken(s: string) { s != "" && forall i | 0 <= i < |s| :: IsTchar(s[i]) }

  function LowerChar(c: char): char { if 'A' <= c <= 'Z' then c - 'A' + 'a' else c }

  function ToLower(s: string): (r: string)
    ensures |r| == |s|
  {
    seq(|s|, i requires 0 <= i < |s| => LowerChar(s[i]))
  }

  /** `HeaderName::from_bytes`: header names are tokens, kept in lower case. */
  function HeaderNameFromBytes(s: string): Option<string> {
    if IsToken(s) && |s| <= MAX_HEADER_NAME_LEN then Some(ToLower(s)) else None
  }

  predicate EqualIgnoringCase(a: string, b: string) { ToLower(a) == ToLower(b) }

  /** `HeaderValue::from_str`: visible ASCII, space or tab. */
  predicate IsHeaderValue(s: string) {
    forall i | 0 <= i < |s| :: ' ' <= s[i] <= '~' || s[i] == '\t'
  }

  /** A request's headers: lower-case names, and the values of one name in the order received. */
  type HeaderMap = seq<(string, string)>

  function GetAll(headers: HeaderMap, name: string): seq<string> {
    if headers == [] then []
    else
      GetAll(headers[..|headers| - 1], name)
      + if headers[|headers| - 1].0 == name then [headers[|headers| - 1].1] else []
  }

  predicate IsParam(name: string) {
    |name| >= |PARAM_PREFIX| && EqualIgnoringCase(name[..|PARAM_PREFIX|], PARAM_PREFIX)
  }

  predicate IsComputed(name: string) {
    || EqualIgnoringCase(name, "Mcp-Method")
    || EqualIgnoringCase(name, "Mcp-Name")
    || EqualIgnoringCase(name, "Mcp-Protocol-Version")
    || IsParam(name)
  }

  // ----- What names and values are, spelled out -----

  lemma LowerCases(c: char)
    ensures LowerChar(c)
            == if c in "ABCDEFGHIJKLMNOPQRSTUVWXYZ" then "abcdefghijklmnopqrstuvwxyz"[c as int - 'A' as int] else c
  {
  }

  lemma LowerIsKept(s: string)
    requires forall i | 0 <= i < |s| :: !('A' <= s[i] <= 'Z')
    ensures ToLower(s) == s
  {
  }

  /** The token characters of section 5.6.2 of RFC 9110, by code. */
  lemma TokenCharacters(c: char)
    ensures var n := c as int;
            IsTchar(c)
            <==> || n == 0x21 || 0x23 <= n <= 0x27 || n == 0x2A || n == 0x2B || n == 0x2D || n == 0x2E
                 || 0x30 <= n <= 0x39 || 0x41 <= n <= 0x5A || 0x5E <= n <= 0x7A || n == 0x7C || n == 0x7E
  {
  }

  lemma HeaderNameIff(s: string)
    ensures HeaderNameFromBytes(s).Some? <==> 1 <= |s| <= 65535 && forall i | 0 <= i < |s| :: IsTchar(s[i])
    ensures HeaderNameFromBytes(s).Some? ==> HeaderNameFromBytes(s).value == ToLower(s)
  {
  }

  lemma HeaderValueIff(s: string)
    ensures IsHeaderValue(s) <==> forall i | 0 <= i < |s| :: s[i] == '\t' || 0x20 <= s[i] as int <= 0x7E
  {
  }

  /** `Mcp-Param-` and anything after it, in any case. */
  lemma ParamNames(name: string)
    ensures IsParam(name) <==> |name| >= 10 && ToLower(name[..10]) == "mcp-param-"
  {
    assert ToLower(PARAM_PREFIX) == "mcp-param-";
  }

  lemma ComputedNames(name: string)
    ensures IsComputed(name)
            <==> IsParam(name) || ToLower(name) in ["mcp-method", "mcp-name", "mcp-protocol-version"]
  {
    assert ToLower("Mcp-Method") == "mcp-method";
    assert ToLower("Mcp-Name") == "mcp-name";
    assert ToLower("Mcp-Protocol-Version") == "mcp-protocol-version";
  }

  /** The values of a name are those of its pairs, in their order. */
  lemma {:induction false} GetAllInOrder(a: HeaderMap, b: HeaderMap, name: string)
    ensures GetAll(a + b, name) == GetAll(a, name) + GetAll(b, name)
  {
    if b == [] {
      assert a + b == a;
    } else {
      assert (a + b)[..|a + b| - 1] == a + b[..|b| - 1];
      GetAllInOrder(a, b[..|b| - 1], name);
    }
  }

  lemma GetAllOfOne(name: string, value: string, other: string)
    ensures GetAll([(name, value)], other) == if name == other then [value] else []
  {
    assert [(name, value)][..0] == [];
    assert GetAll([], other) == [];
  }
}
