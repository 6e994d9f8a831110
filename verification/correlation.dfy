/**
 * How the two directions fit together. Request `n` goes out as `"42" + str(n) + [...]`;
 * the gateway's acknowledgement comes back as `"43" + str(n) + [...]`, and the
 * router files it under `"43" + str(n) + ".json"`, so each request has a bucket of
 * its own, and the client's own frames never pass the router's filter.
 */
module Correlation {
  import opened Wrappers
  import opened Text
  import opened JsonValue
  import opened Encoder
  import opened Router

  /** The key of the acknowledgement of request `n`. */
  function AckKey(n: nat): (key: string)
    ensures StartsWith(key, ResponseMarker)
    ensures AllDigits(key[|ResponseMarker|..]) && DigitsValue(key[|ResponseMarker|..]) == n
  {
    var key := ResponseMarker + Decimal(n);
    assert key[|ResponseMarker|..] == Decimal(n);
    DigitsValueOfDecimal(n);
    key
  }

  /** A frame built by `send_dynamic_message` starts with "42" and is ignored by `on_message`. */
  lemma OwnFrameIgnored(collectionId: string, n: nat, dumps: Json -> string,
                        files: map<string, StoredFile>, parse: string -> Option<Json>)
    requires ListSerializer(dumps)
    ensures Classify(SendDynamicMessage(collectionId, n, dumps)) == NotResponse
    ensures Deliver(files, SendDynamicMessage(collectionId, n, dumps), parse) == Step(Ignored, files)
  {
    var frame := SendDynamicMessage(collectionId, n, dumps);
    assert frame[1] == EventMarker[1] != ResponseMarker[1];
  }

  /**
   * The acknowledgement of request `n`, whatever JSON array follows the number, is
   * split into the key "43<n>" and that array, and so goes to the file "43<n>.json".
   */
  lemma AckRoutedByNumber(n: nat, body: string)
    requires body != [] && body[0] == JsonStart
    ensures Classify(ResponseMarker + Decimal(n) + body) == Response(AckKey(n), body)
  {
    var key := AckKey(n);
    var digits := Decimal(n);
    DigitsAreSolid(digits);
    assert key == ResponseMarker + digits;
    assert JsonStart !in ResponseMarker;
    assert JsonStart !in key;
    assert key[|key| - 1] == digits[|digits| - 1];
    ClassifyResponse(key, "", body);
    assert key + "" + body == ResponseMarker + digits + body;
  }

  /** Acknowledgements of different requests are written to different files. */
  lemma DistinctRequestsDistinctBuckets(a: nat, b: nat)
    ensures FileName(AckKey(a)) == FileName(AckKey(b)) <==> a == b
  {
    if FileName(AckKey(a)) == FileName(AckKey(b)) {
      assert |AckKey(a)| == |AckKey(b)|;
      assert AckKey(a) == FileName(AckKey(a))[..|AckKey(a)|] == FileName(AckKey(b))[..|AckKey(b)|] == AckKey(b);
    }
  }
}
