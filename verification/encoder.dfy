/**
 * The outbound side of `send_dynamic_message`: the Socket.IO event frame
 * `"42" + str(n) + json.dumps(["get", {...}])`. In the Socket.IO packet encoding the
 * leading `4` is the Engine.IO "message" type and the `2` the Socket.IO EVENT type;
 * the digits that follow are the acknowledgement id, and the JSON array follows
 * without a separator.
 */
module Encoder {
  import opened Wrappers
  import opened Text
  import opened JsonValue

  /** Engine.IO message (4) carrying a Socket.IO EVENT (2). */
  const EventMarker: string := "42"

  const RequestPathPrefix: string := "/request/?collection="

  const UserAgent: string :=
    "Mozilla/5.0 (Windows NT 10.0; Win64; x64) AppleWebKit/537.36 (KHTML, like Gecko) "
    + "Chrome/122.0.0.0 Safari/537.36 PostmanClient/10.24.1-240310-1628 (AppId=web)"
  const EntityTeamId: string := "0"
  const AppVersion: string := "10.24.1-240310-1628"

  /** The URL requested for one collection id. */
  function RequestUrl(collectionId: string): (url: string)
    ensures StartsWith(url, RequestPathPrefix)
    ensures url[|RequestPathPrefix|..] == collectionId
  {
    RequestPathPrefix + collectionId
  }

  /** The list `["get", {method, data, url, headers}]` that is serialised for one collection. */
  function RequestEvent(collectionId: string): (event: Json)
    ensures event.Array? && |event.elems| == 2 && event.elems[0] == Str("get")
    ensures event.elems[1].Object? && |event.elems[1].members| == 4
    ensures event.elems[1].members[0] == ("method", Str("get"))
    ensures event.elems[1].members[2] == ("url", Str(RequestPathPrefix + collectionId))
  {
    Array([
      Str("get"),
      Object([
        ("method", Str("get")),
        ("data", Object([])),
        ("url", Str(RequestUrl(collectionId))),
        ("headers", Object([
          ("user-agent", Str(UserAgent)),
          ("x-entity-team-id", Str(EntityTeamId)),
          ("x-app-version", Str(AppVersion))
        ]))
      ])
    ])
  }

  /** The value of the first member named `key` of a JSON object's member list. */
  function Member(members: seq<(string, Json)>, key: string): (r: Option<Json>)
    ensures r.Some? <==> exists i :: 0 <= i < |members| && members[i].0 == key
    ensures r.Some? ==> exists i :: 0 <= i < |members| && members[i] == (key, r.value)
  {
    if members == [] then None
    else if members[0].0 == key then Some(members[0].1)
    else
      var r := Member(members[1..], key);
      assert forall i :: 0 < i < |members| ==> members[i] == members[1..][i - 1];
      r
  }

  /**
   * Reads the collection id back out of a request event: the second element must be
   * an object whose "url" member is a string starting with the request path.
   */
  function RequestedCollection(event: Json): (r: Option<string>)
    ensures r.Some? ==> event.Array? && |event.elems| == 2 && event.elems[1].Object?
    ensures r.Some? ==>
      Member(event.elems[1].members, "url") == Some(Str(RequestPathPrefix + r.value))
  {
    if event.Array? && |event.elems| == 2 && event.elems[1].Object? then
      match Member(event.elems[1].members, "url")
      case Some(Str(url)) =>
        if StartsWith(url, RequestPathPrefix) then
          assert url == RequestPathPrefix + url[|RequestPathPrefix|..];
          Some(url[|RequestPathPrefix|..])
        else None
      case _ => None
    else None
  }

  /** The request event for a collection names that collection and no other. */
  lemma RequestEventNamesCollection(collectionId: string)
    ensures RequestEvent(collectionId).Array?
    ensures RequestedCollection(RequestEvent(collectionId)) == Some(collectionId)
  {
    var members := RequestEvent(collectionId).elems[1].members;
    assert members[0].0 != "url" && members[1].0 != "url";
    assert members[2..][0] == ("url", Str(RequestUrl(collectionId)));
    assert Member(members[1..], "url") == Member(members[1..][1..], "url");
    assert members[1..][1..] == members[2..];
  }

  /** `f"42{n}"`: the correlation prefix of request number `n`. */
  function Prefix(n: nat): (p: string)
    ensures StartsWith(p, EventMarker) && |p| > |EventMarker|
    ensures '[' !in p
    ensures AllDigits(p[|EventMarker|..]) && DigitsValue(p[|EventMarker|..]) == n
  {
    var p := EventMarker + Decimal(n);
    assert p[|EventMarker|..] == Decimal(n);
    DigitsValueOfDecimal(n);
    DigitsAreSolid(Decimal(n));
    p
  }

  /** Two requests share a prefix only when they share a sequence number. */
  lemma PrefixInjective(a: nat, b: nat)
    ensures Prefix(a) == Prefix(b) <==> a == b
  {
    if Prefix(a) == Prefix(b) {
      assert Prefix(a)[|EventMarker|..] == Prefix(b)[|EventMarker|..];
    }
  }

  /** The frame `send_dynamic_message(ws, collectionId, n)` hands to `ws.send`. */
  function SendDynamicMessage(collectionId: string, n: nat, dumps: Json -> string): (frame: string)
    requires ListSerializer(dumps)
    ensures StartsWith(frame, EventMarker)
    ensures Find(frame, '[') == |Prefix(n)|
  {
    var p := Prefix(n);
    var body := dumps(RequestEvent(collectionId));
    var frame := p + body;
    assert frame[..|p|] == p;
    assert frame[|p|] == '[';
    assert EventMarker <= p;
    frame
  }

  /** A decoded outbound frame: its sequence number and the JSON text after the prefix. */
  datatype Outbound = Outbound(seqNo: nat, payload: string)

  /**
   * Splits an outbound frame at its first `[`, the same rule the response router uses,
   * and reads the sequence number out of the prefix. Fails when there is no `[` or
   * the prefix is not `"42"` followed by at least one digit.
   */
  function DecodeOutbound(frame: string): (r: Option<Outbound>)
    ensures r.Some? ==> StartsWith(frame, EventMarker)
    ensures r.Some? ==> r.value.payload != [] && r.value.payload[0] == '['
    ensures r.Some? ==> |r.value.payload| < |frame| && frame[|frame| - |r.value.payload|..] == r.value.payload
  {
    var pos := Find(frame, '[');
    if pos == -1 then None
    else
      var prefix := frame[..pos];
      if StartsWith(prefix, EventMarker) && |prefix| > |EventMarker| && AllDigits(prefix[|EventMarker|..]) then
        assert frame[..|EventMarker|] == prefix[..|EventMarker|];
        Some(Outbound(DigitsValue(prefix[|EventMarker|..]), frame[pos..]))
      else None
  }

  /**
   * Round trip: decoding the frame built for request `n` of `collectionId` recovers
   * `n` and the serialised request, which in turn names `collectionId`.
   */
  lemma {:induction false} DecodeSendDynamicMessage(collectionId: string, n: nat, dumps: Json -> string)
    requires ListSerializer(dumps)
    ensures DecodeOutbound(SendDynamicMessage(collectionId, n, dumps))
            == Some(Outbound(n, dumps(RequestEvent(collectionId))))
    ensures RequestedCollection(RequestEvent(collectionId)) == Some(collectionId)
  {
    var frame := SendDynamicMessage(collectionId, n, dumps);
    var p := Prefix(n);
    assert frame == p + dumps(RequestEvent(collectionId));
    assert frame[..|p|] == p;
    assert frame[|p|..] == dumps(RequestEvent(collectionId));
    RequestEventNamesCollection(collectionId);
  }
}
