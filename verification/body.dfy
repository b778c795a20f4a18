/** What sendHttpRequest writes to the outgoing request before ending it. */
module RequestBody {

  /** A JSON value, the shape a decoded request body can take. */
  datatype Json =
    | JNull
    | JBool(b: bool)
    | JNumber(n: real)
    | JString(s: string)
    | JArray(items: seq<Json>)
    | JObject(members: seq<(string, Json)>)

  /** JavaScript truthiness of a JSON value: null, false, 0 and the empty
      string are falsy; every array and object, even an empty one, is truthy. */
  predicate Truthy(v: Json)
    ensures Truthy(v) <==> v !in {JNull, JBool(false), JNumber(0.0), JString("")}
  {
    match v
    case JNull => false
    case JBool(b) => b
    case JNumber(n) => n != 0.0
    case JString(s) => s != ""
    case JArray(_) => true
    case JObject(_) => true
  }

  /** A call made on the outgoing request. */
  datatype RequestCall = WriteCall(chunk: string) | EndCall

  /** The outgoing request, seen through the calls made on it. */
  class ClientRequest {
    var calls: seq<RequestCall>

    constructor ()
      ensures calls == []
    {
      calls := [];
    }

    /** request.write(chunk) */
    method Write(chunk: string)
      modifies this
      ensures calls == old(calls) + [WriteCall(chunk)]
    {
      calls := calls + [WriteCall(chunk)];
    }

    /** request.end() */
    method End()
      modifies this
      ensures calls == old(calls) + [EndCall]
    {
      calls := calls + [EndCall];
    }
  }

  /** The calls the body-writing branch makes, given the JSON serializer. */
  function Framing(body: Json, stringify: Json -> string): (calls: seq<RequestCall>)
    ensures calls != [] && calls[|calls| - 1] == EndCall
    ensures forall i | 0 <= i < |calls| - 1 :: calls[i].WriteCall?
  {
    if !Truthy(body) then [EndCall]
    else if !body.JString? then [WriteCall(stringify(body)), EndCall]
    else [WriteCall(body.s), EndCall]
  }

  /** The text handed to write calls, in order. */
  function WrittenText(calls: seq<RequestCall>): string
    decreases |calls|
  {
    if calls == [] then ""
    else (if calls[0].WriteCall? then calls[0].chunk else "") + WrittenText(calls[1..])
  }

  /** The number of end calls. */
  function EndCount(calls: seq<RequestCall>): nat
    decreases |calls|
  {
    if calls == [] then 0 else (if calls[0].EndCall? then 1 else 0) + EndCount(calls[1..])
  }

  /** The body branch of sendHttpRequest: a truthy non-string body is sent as
      its JSON text, a non-empty string as is, a falsy body not at all; the
      request is then ended. */
  method SendBody(request: ClientRequest, body: Json, stringify: Json -> string)
    modifies request
    ensures request.calls == old(request.calls) + Framing(body, stringify)
  {
    if Truthy(body) {
      if !body.JString? {
        request.Write(stringify(body));
      } else {
        request.Write(body.s);
      }
    }
    request.End();
  }

  /** The body is written in at most one call and request.end() is called
      exactly once, as the last call. */
  lemma FramingEndsOnce(body: Json, stringify: Json -> string)
    ensures 1 <= |Framing(body, stringify)| <= 2
    ensures Framing(body, stringify)[|Framing(body, stringify)| - 1] == EndCall
    ensures EndCount(Framing(body, stringify)) == 1
  {
    var f := Framing(body, stringify);
    assert EndCount(f[1..]) == (if |f| == 2 then 1 else 0);
  }

  /** What the connection carries: a non-empty string verbatim, another truthy
      body serialized, nothing for a falsy body. A string body is never
      passed through the serializer. */
  lemma FramingWritesPayload(body: Json, stringify: Json -> string)
    ensures !Truthy(body) ==> WrittenText(Framing(body, stringify)) == ""
    ensures body.JString? && body.s != "" ==> WrittenText(Framing(body, stringify)) == body.s
    ensures Truthy(body) && !body.JString? ==>
              WrittenText(Framing(body, stringify)) == stringify(body)
    ensures Framing(body, stringify) == [EndCall] <==> !Truthy(body)
  {
    var f := Framing(body, stringify);
    if Truthy(body) {
      assert f[1..] == [EndCall];
      assert WrittenText(f[1..]) == "";
    }
  }

  /** Falsy values other than null are not serialized either: `false`, `0`
      and the empty string all lead to a bare request.end(). */
  lemma FalsyBodiesWriteNothing(stringify: Json -> string)
    ensures Framing(JBool(false), stringify) == [EndCall]
    ensures Framing(JNumber(0.0), stringify) == [EndCall]
    ensures Framing(JString(""), stringify) == [EndCall]
    ensures Framing(JNull, stringify) == [EndCall]
  {
  }

  /** An empty object or array is truthy, so it is serialized. */
  lemma EmptyContainersAreSerialized(stringify: Json -> string)
    ensures Framing(JObject([]), stringify) == [WriteCall(stringify(JObject([]))), EndCall]
    ensures Framing(JArray([]), stringify) == [WriteCall(stringify(JArray([]))), EndCall]
  {
  }
}
