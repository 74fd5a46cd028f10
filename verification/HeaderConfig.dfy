/** The ordered passes that turn a backend's header configuration into upstream headers. */
module HeaderConfig {
  import opened Common
  import opened HttpHeaders

  const PROTECTED: seq<string> := [
    "host",
    "content-length", "content-type",
    "connection", "keep-alive", "proxy-authenticate", "proxy-authorization", "te", "trailer", "trailers",
    "transfer-encoding", "upgrade",
    "proxy-connection",
    "mcp-session-id", "accept", "last-event-id"]

  predicate IsProtectedHeader(name: string) {
    (exists i | 0 <= i < |PROTECTED| :: EqualIgnoringCase(name, PROTECTED[i])) || IsComputed(name)
  }

  /** `add` lists the configured map in whatever order it is iterated. */
  datatype BackendHeaders = BackendHeaders(
    passthrough: seq<string>,
    add: seq<(string, string)>,
    remove: seq<string>)

  function Lookup(headers: map<string, string>, name: string): Option<string> {
    if name in headers then Some(headers[name]) else None
  }

  function First(values: seq<string>): Option<string> { if values == [] then None else Some(values[0]) }

  function Last(values: seq<string>): Option<string> { if values == [] then None else Some(values[|values| - 1]) }

  function Or(value: Option<string>, fallback: Option<string>): Option<string> {
    if value.Some? then value else fallback
  }

  /** Some configured spelling names this header. */
  predicate Names(spellings: seq<string>, name: string) {
    exists i | 0 <= i < |spellings| :: HeaderNameFromBytes(spellings[i]) == Some(name)
  }

  /** The configured values of a header that `http` accepts, in iteration order. */
  function ValidAdds(add: seq<(string, string)>, name: string): seq<string> {
    if add == [] then []
    else
      var (spelling, value) := add[|add| - 1];
      ValidAdds(add[..|add| - 1], name)
      + if HeaderNameFromBytes(spelling) == Some(name) && IsHeaderValue(value) then [value] else []
  }

  /** The final value of one header, without any order of passes. */
  function Precedence(name: string, initial: Option<string>, config: BackendHeaders, downstream: HeaderMap)
      : Option<string>
  {
    if IsParam(name) then Or(Last(GetAll(downstream, name)), initial)
    else if IsProtectedHeader(name) then initial
    else if Names(config.remove, name) then None
    else Or(Last(ValidAdds(config.add, name)),
            Or(if Names(config.passthrough, name) then First(GetAll(downstream, name)) else None,
               initial))
  }

  lemma NamesSnoc(spellings: seq<string>, n: nat, name: string)
    requires n < |spellings|
    ensures Names(spellings[..n + 1], name)
            <==> Names(spellings[..n], name) || HeaderNameFromBytes(spellings[n]) == Some(name)
  {
    assert spellings[..n + 1][n] == spellings[n];
    assert forall i | 0 <= i < n :: spellings[..n + 1][i] == spellings[..n][i];
  }

  class UpstreamHeaders {
    var headers: map<string, string>

    constructor (initial: map<string, string>)
      ensures headers == initial
    {
      headers := initial;
    }

    method PassThrough(passthrough: seq<string>, downstream: HeaderMap)
      modifies this
      ensures forall name :: Lookup(headers, name)
                == Or(if !IsProtectedHeader(name) && Names(passthrough, name)
                      then First(GetAll(downstream, name)) else None,
                      Lookup(old(headers), name))
    {
      for i := 0 to |passthrough|
        invariant forall name :: Lookup(headers, name)
                    == Or(if !IsProtectedHeader(name) && Names(passthrough[..i], name)
                          then First(GetAll(downstream, name)) else None,
                          Lookup(old(headers), name))
      {
        forall name {
          NamesSnoc(passthrough, i, name);
        }
        var name := HeaderNameFromBytes(passthrough[i]);
        if name.None? || IsProtectedHeader(name.value) {
          continue;
        }
        var value := First(GetAll(downstream, name.value));
        if value.Some? {
          headers := headers[name.value := value.value];
        }
      }
      assert passthrough[..|passthrough|] == passthrough;
    }

    method ForwardParams(downstream: HeaderMap)
      modifies this
      ensures forall name :: Lookup(headers, name)
                == Or(if IsParam(name) then Last(GetAll(downstream, name)) else None, Lookup(old(headers), name))
    {
      for i := 0 to |downstream|
        invariant forall name :: Lookup(headers, name)
                    == Or(if IsParam(name) then Last(GetAll(downstream[..i], name)) else None,
                          Lookup(old(headers), name))
      {
        assert downstream[..i + 1][..i] == downstream[..i];
        var (name, value) := downstream[i];
        if IsParam(name) {
          headers := headers[name := value];
        }
      }
      assert downstream[..|downstream|] == downstream;
    }

    method AddConfigured(add: seq<(string, string)>)
      modifies this
      ensures forall name :: Lookup(headers, name)
                == Or(if !IsProtectedHeader(name) then Last(ValidAdds(add, name)) else None, Lookup(old(headers), name))
    {
      for i := 0 to |add|
        invariant forall name :: Lookup(headers, name)
                    == Or(if !IsProtectedHeader(name) then Last(ValidAdds(add[..i], name)) else None,
                          Lookup(old(headers), name))
      {
        assert add[..i + 1][..i] == add[..i];
        var (spelling, value) := add[i];
        var name := HeaderNameFromBytes(spelling);
        if name.None? || !IsHeaderValue(value) || IsProtectedHeader(name.value) {
          continue;
        }
        headers := headers[name.value := value];
      }
      assert add[..|add|] == add;
    }

    method RemoveConfigured(remove: seq<string>)
      modifies this
      ensures forall name :: Lookup(headers, name)
                == if !IsProtectedHeader(name) && Names(remove, name) then None else Lookup(old(headers), name)
    {
      for i := 0 to |remove|
        invariant forall name :: Lookup(headers, name)
                    == if !IsProtectedHeader(name) && Names(remove[..i], name) then None else Lookup(old(headers), name)
      {
        forall name {
          NamesSnoc(remove, i, name);
        }
        var name := HeaderNameFromBytes(remove[i]);
        if name.None? || IsProtectedHeader(name.value) {
          continue;
        }
        headers := headers - {name.value};
      }
      assert remove[..|remove|] == remove;
    }

    /** Whatever the passes overwrite, the result is one formula per header. */
    method ApplyHeaderConfig(config: BackendHeaders, downstream: Option<HeaderMap>)
      modifies this
      ensures forall name :: Lookup(headers, name)
                == Precedence(name, Lookup(old(headers), name), config,
                              if downstream.Some? then downstream.value else [])
    {
      if downstream.Some? {
        PassThrough(config.passthrough, downstream.value);
        ForwardParams(downstream.value);
      }
      AddConfigured(config.add);
      RemoveConfigured(config.remove);
    }
  }

  // ----- The precedence, case by case -----

  lemma ProtectedNames(name: string)
    ensures IsProtectedHeader(name)
            <==> || IsComputed(name)
                 || ToLower(name) in ["host", "content-length", "content-type", "connection", "keep-alive",
                                      "proxy-authenticate", "proxy-authorization", "te", "trailer", "trailers",
                                      "transfer-encoding", "upgrade", "proxy-connection", "mcp-session-id", "accept",
                                      "last-event-id"]
  {
    forall i | 0 <= i < |PROTECTED| ensures ToLower(PROTECTED[i]) == PROTECTED[i] {
      ProtectedAreLower(i);
      LowerIsKept(PROTECTED[i]);
    }
    assert forall i | 0 <= i < |PROTECTED| :: EqualIgnoringCase(name, PROTECTED[i]) <==> ToLower(name) == PROTECTED[i];
    assert ToLower(name) in PROTECTED <==> exists i | 0 <= i < |PROTECTED| :: PROTECTED[i] == ToLower(name);
  }

  lemma ProtectedAreLower(i: nat)
    requires i < |PROTECTED|
    ensures forall k | 0 <= k < |PROTECTED[i]| :: !('A' <= PROTECTED[i][k] <= 'Z')
  {
  }

  /** The pair at `i` is the last, or the first, one of the name. */
  predicate LastOfName(headers: HeaderMap, name: string, i: nat) {
    i < |headers| && headers[i].0 == name && forall j | i < j < |headers| :: headers[j].0 != name
  }

  predicate FirstOfName(headers: HeaderMap, name: string, i: nat) {
    i < |headers| && headers[i].0 == name && forall j | 0 <= j < i :: headers[j].0 != name
  }

  /** The addition at `i` is one that `http` accepts for the name. */
  predicate AddsTo(add: seq<(string, string)>, name: string, i: nat) {
    i < |add| && HeaderNameFromBytes(add[i].0) == Some(name) && IsHeaderValue(add[i].1)
  }

  lemma {:induction false} LastValueIff(headers: HeaderMap, name: string, i: nat)
    ensures LastOfName(headers, name, i) ==> Last(GetAll(headers, name)) == Some(headers[i].1)
    ensures (forall k | 0 <= k < |headers| :: headers[k].0 != name) ==> GetAll(headers, name) == []
  {
    if headers != [] {
      LastValueIff(headers[..|headers| - 1], name, i);
    }
  }

  lemma {:induction false} FirstValueIff(headers: HeaderMap, name: string, i: nat)
    requires FirstOfName(headers, name, i)
    ensures First(GetAll(headers, name)) == Some(headers[i].1)
  {
    var front := headers[..|headers| - 1];
    if i < |front| {
      FirstValueIff(front, name, i);
    } else {
      LastValueIff(front, name, 0);
    }
  }

  lemma {:induction false} LastAddIff(add: seq<(string, string)>, name: string, i: nat)
    ensures AddsTo(add, name, i) && (forall j | i < j < |add| :: !AddsTo(add, name, j)) ==>
              Last(ValidAdds(add, name)) == Some(add[i].1)
    ensures (forall k | 0 <= k < |add| :: !AddsTo(add, name, k)) ==> ValidAdds(add, name) == []
  {
    if add != [] {
      var front, n := add[..|add| - 1], |add| - 1;
      LastAddIff(front, name, i);
      forall k | 0 <= k < n ensures AddsTo(front, name, k) <==> AddsTo(add, name, k) {
      }
      assert AddsTo(add, name, n) <==> HeaderNameFromBytes(add[n].0) == Some(name) && IsHeaderValue(add[n].1);
    }
  }

  /**
    Parameter headers come from the last downstream value and nothing else changes them; other protected headers stay;
    a removed header is gone even if it was added or passed through; an added one beats one that is passed through.
   */
  lemma PrecedenceCases(name: string, initial: Option<string>, config: BackendHeaders, downstream: HeaderMap, i: nat)
    ensures var final := Precedence(name, initial, config, downstream);
            && (IsParam(name) && LastOfName(downstream, name, i) ==> final == Some(downstream[i].1))
            && (IsParam(name) && (forall k | 0 <= k < |downstream| :: downstream[k].0 != name) ==> final == initial)
            && (!IsParam(name) && IsProtectedHeader(name) ==> final == initial)
            && (!IsProtectedHeader(name) ==>
                  && (Names(config.remove, name) ==> final == None)
                  && (!Names(config.remove, name) ==>
                        && (AddsTo(config.add, name, i)
                            && (forall j | i < j < |config.add| :: !AddsTo(config.add, name, j))
                            ==> final == Some(config.add[i].1))
                        && ((forall k | 0 <= k < |config.add| :: !AddsTo(config.add, name, k)) ==>
                              && (Names(config.passthrough, name) && FirstOfName(downstream, name, i) ==>
                                    final == Some(downstream[i].1))
                              && ((|| !Names(config.passthrough, name)
                                   || forall k | 0 <= k < |downstream| :: downstream[k].0 != name)
                                  ==> final == initial))))
  {
    LastValueIff(downstream, name, i);
    LastAddIff(config.add, name, i);
    if FirstOfName(downstream, name, i) {
      FirstValueIff(downstream, name, i);
    }
  }
}
