/**
 * The inbound side: `on_message`. A frame that starts with "43" (Engine.IO message,
 * Socket.IO ACK) is split at its first `[`; the stripped text before it, marker
 * included, names the bucket file `<key>.json`, and the text from the `[` on is
 * parsed as JSON and appended to the list stored in that file.
 *
 * The output directory is a map from file name to what `json.load` finds in the
 * file: a name that is not in the map is a missing file, `NotText` is a file whose
 * bytes do not decode as text, `NotJson` is a file whose text is not valid JSON, and
 * `Stored(v)` is a file holding the JSON value `v`.
 */
module Router {
  import opened Wrappers
  import opened Text
  import opened JsonValue

  /** Engine.IO message (4) carrying a Socket.IO ACK (3). */
  const ResponseMarker: string := "43"
  const JsonStart: char := '['
  const FileExtension: string := ".json"
  /** `open` refuses a path holding this character with a `ValueError`. */
  const NullChar: char := '\0'

  /** How `on_message` reads a frame before it touches the disk. */
  datatype Frame =
    | NotResponse                        // does not start with "43"
    | NoJsonStart                        // starts with "43" but holds no `[`
    | Response(key: string, body: string)

  /**
   * Filters and splits a frame: frames without the marker, and marked frames without
   * a `[`, are told apart from responses; a response's key keeps the "43" marker and
   * its body opens with `[`. `ResponseSplit` says exactly where the split falls.
   */
  function Classify(message: string): (f: Frame)
    ensures f.NotResponse? <==> !StartsWith(message, ResponseMarker)
    ensures f.NoJsonStart? <==> StartsWith(message, ResponseMarker) && JsonStart !in message
    ensures f.Response? ==>
      StartsWith(f.key, ResponseMarker) && f.body != [] && f.body[0] == JsonStart
  {
    if !StartsWith(message, ResponseMarker) then NotResponse
    else
      var pos := Find(message, JsonStart);
      if pos == -1 then NoJsonStart
      else
        SplitAtJsonStart(message);
        Response(Strip(message[..pos]), message[pos..])
  }

  /**
   * A response frame is its key, then only whitespace, then its body: the key holds
   * no `[` and does not end in whitespace, and the body opens at the first `[`.
   */
  lemma ResponseSplit(message: string)
    requires Classify(message).Response?
    ensures var f := Classify(message);
      && JsonStart !in f.key
      && !IsSpace(f.key[|f.key| - 1])
      && |f.key| + |f.body| <= |message|
      && message[..|f.key|] == f.key
      && message[|message| - |f.body|..] == f.body
      && forall i :: |f.key| <= i < |message| - |f.body| ==> IsSpace(message[i])
  {
    SplitAtJsonStart(message);
  }

  /** The facts `Classify` promises about the key and body of a response frame. */
  lemma SplitAtJsonStart(message: string)
    requires StartsWith(message, ResponseMarker) && JsonStart in message
    ensures var pos := Find(message, JsonStart);
            var key := Strip(message[..pos]);
            && StartsWith(key, ResponseMarker)
            && JsonStart !in key
            && !IsSpace(key[|key| - 1])
            && |key| <= pos
            && message[..|key|] == key
            && forall i :: |key| <= i < pos ==> IsSpace(message[i])
  {
    var pos := Find(message, JsonStart);
    var head := message[..pos];
    assert message[..2] == ResponseMarker;
    assert 2 <= pos;
    assert head[0] == '4' && head[1] == '3';
    assert !IsSpace(head[0]) && !IsSpace(head[1]);
    var key := Strip(head);
    assert key == head[..|key|];
    assert 2 <= |key|;
    assert key[..2] == head[..2] == ResponseMarker;
    assert JsonStart !in head;
    assert message[..|key|] == head[..|key|];
  }

  /** `f"{status_code}.json"`. */
  function FileName(key: string): (name: string)
    ensures |name| == |key| + |FileExtension|
    ensures name[..|key|] == key && name[|key|..] == FileExtension
  {
    key + FileExtension
  }

  /** What `json.load` finds in an existing bucket file. */
  datatype StoredFile =
    | NotText                            // decoding raises UnicodeDecodeError, a ValueError
    | NotJson                            // json.JSONDecodeError
    | Stored(content: Json)

  /**
   * Opening or reading the bucket raises a `ValueError` that the inner handler does
   * not catch: the name holds a NUL character, or the file's bytes are not text.
   */
  predicate ReadRaises(files: map<string, StoredFile>, name: string) {
    NullChar in name || (name in files && files[name].NotText?)
  }

  /**
   * The list the read-modify-write starts from: the stored list, or the empty list
   * when the file is missing or not valid JSON; `None` when there is no list to
   * append to, because the file is not text or holds valid JSON that is not a list.
   */
  function ExistingList(files: map<string, StoredFile>, name: string): (r: Option<seq<Json>>)
    ensures r.None? <==>
      name in files && (files[name].NotText? || (files[name].Stored? && !files[name].content.Array?))
    ensures r == Some([]) <== name !in files || files[name].NotJson?
  {
    if name !in files then Some([])
    else match files[name]
      case NotText => None
      case NotJson => Some([])
      case Stored(v) => if v.Array? then Some(v.elems) else None
  }

  /** What became of one frame. */
  datatype Delivery =
    | Ignored                            // not a response frame
    | NoJson                             // no `[` in the frame
    | InvalidJson                        // the body failed to parse; the ValueError is caught
    | ReadFailed(fileName: string)       // opening or reading the bucket raised a ValueError; caught
    | Appended(fileName: string)
    | AppendRaised(fileName: string)     // the bucket holds non-list JSON; AttributeError escapes

  datatype Step = Step(delivery: Delivery, files: map<string, StoredFile>)

  /**
   * The effect of `on_message` on the output directory, once the frame is read. Only
   * an append changes the directory, and an append changes exactly the one file it
   * names.
   */
  function Handle(files: map<string, StoredFile>, frame: Frame, parse: string -> Option<Json>): (r: Step)
    ensures !r.delivery.Appended? ==> r.files == files
    ensures r.delivery.Appended? ==> frame.Response? && r.delivery.fileName == FileName(frame.key)
    ensures r.delivery.Appended? ==>
      && r.delivery.fileName in r.files
      && (forall n :: n in r.files ==> n in files || n == r.delivery.fileName)
      && (forall n :: n in files && n != r.delivery.fileName ==> n in r.files && r.files[n] == files[n])
  {
    match frame
    case NotResponse => Step(Ignored, files)
    case NoJsonStart => Step(NoJson, files)
    case Response(key, body) =>
      match parse(body)
      case None => Step(InvalidJson, files)
      case Some(data) =>
        var name := FileName(key);
        if ReadRaises(files, name) then Step(ReadFailed(name), files)
        else match ExistingList(files, name)
        case None => Step(AppendRaised(name), files)
        case Some(items) => Step(Appended(name), files[name := Stored(Array(items + [data]))])
  }

  /**
   * `on_message` from the raw frame: a frame without the marker is ignored, and only
   * a response whose bucket is the file named after its key can change the directory.
   */
  function Deliver(files: map<string, StoredFile>, message: string, parse: string -> Option<Json>): (r: Step)
    ensures !StartsWith(message, ResponseMarker) ==> r == Step(Ignored, files)
    ensures !r.delivery.Appended? ==> r.files == files
    ensures r.delivery.Appended? ==>
      Classify(message).Response? && r.delivery.fileName == FileName(Classify(message).key)
  {
    var r := Handle(files, Classify(message), parse);
    assert !StartsWith(message, ResponseMarker) ==> Classify(message).NotResponse?;
    r
  }

  /** The output directory, `target/`, which `on_message` updates one file at a time. */
  class TargetDirectory {
    var files: map<string, StoredFile>

    /** `os.makedirs(target_dir, exist_ok=True)`: whatever files are already there stay. */
    constructor (existing: map<string, StoredFile>)
      ensures files == existing
    {
      files := existing;
    }

    /**
     * Read the bucket (missing or invalid JSON counts as `[]`), append `data`, write
     * the whole list back. Fails without writing when the bucket cannot be opened or
     * decoded (`ReadFailed`) or holds non-list JSON (`AppendRaised`).
     */
    method AppendToBucket(name: string, data: Json) returns (d: Delivery)
      modifies this
      ensures d in {ReadFailed(name), AppendRaised(name), Appended(name)}
      ensures d.ReadFailed? <==> ReadRaises(old(files), name)
      ensures d.Appended? <==> !ReadRaises(old(files), name) && ExistingList(old(files), name).Some?
      ensures d.Appended? ==>
        files == old(files)[name := Stored(Array(ExistingList(old(files), name).value + [data]))]
      ensures d.Appended? ==> ExistingList(files, name) == Some(ExistingList(old(files), name).value + [data])
      ensures !d.Appended? ==> files == old(files)
    {
      if NullChar in name {
        return ReadFailed(name);   // open(...) raises ValueError: embedded null byte
      }
      var fileData: seq<Json>;
      if name !in files {
        fileData := [];   // FileNotFoundError is caught
      } else {
        match files[name]
        case NotText =>
          return ReadFailed(name);   // UnicodeDecodeError escapes the inner handler
        case NotJson =>
          fileData := [];   // json.JSONDecodeError is caught
        case Stored(v) =>
          if !v.Array? {
            return AppendRaised(name);   // file_data.append raises AttributeError
          }
          fileData := v.elems;
      }
      fileData := fileData + [data];
      files := files[name := Stored(Array(fileData))];
      d := Appended(name);
    }

    /** `on_message(ws, message)`, with `json.loads` given as `parse`. */
    method OnMessage(message: string, parse: string -> Option<Json>) returns (d: Delivery)
      modifies this
      ensures Step(d, files) == Handle(old(files), Classify(message), parse)
    {
      if !StartsWith(message, ResponseMarker) {
        return Ignored;
      }
      var jsonStartPos := Find(message, JsonStart);
      if jsonStartPos == -1 {
        return NoJson;
      }
      var statusCode := Strip(message[..jsonStartPos]);
      var fileName := FileName(statusCode);
      var jsonContent := message[jsonStartPos..];
      ghost var frame := Classify(message);
      assert frame == Response(statusCode, jsonContent);
      var parsed := parse(jsonContent);
      if parsed.None? {
        return InvalidJson;
      }
      ghost var before := files;
      d := AppendToBucket(fileName, parsed.value);
      assert Step(d, files) == Handle(before, frame, parse);
    }
  }

  /** A frame without the "43" marker leaves every bucket as it was. */
  lemma NonResponseIgnored(files: map<string, StoredFile>, message: string, parse: string -> Option<Json>)
    requires !StartsWith(message, ResponseMarker)
    ensures Deliver(files, message, parse) == Step(Ignored, files)
  {
  }

  /**
   * A "43" frame with no `[`, or whose text from the first `[` does not parse, is
   * dropped: no bucket changes and no exception escapes.
   */
  lemma MalformedResponseDropped(files: map<string, StoredFile>, message: string, parse: string -> Option<Json>)
    requires StartsWith(message, ResponseMarker)
    requires JsonStart !in message || parse(message[Find(message, JsonStart)..]).None?
    ensures Deliver(files, message, parse).files == files
    ensures Deliver(files, message, parse).delivery in {NoJson, InvalidJson}
  {
  }

  /**
   * An accepted frame: the bucket `<key>.json` becomes its previous list (or `[]`)
   * followed by the parsed body, one element longer, and no other file changes.
   */
  lemma AcceptedResponseAppends(files: map<string, StoredFile>, message: string, parse: string -> Option<Json>)
    requires Classify(message).Response?
    requires parse(Classify(message).body).Some?
    requires NullChar !in Classify(message).key
    requires ExistingList(files, FileName(Classify(message).key)).Some?
    ensures var name := FileName(Classify(message).key);
            var before := ExistingList(files, name).value;
            var after := Deliver(files, message, parse).files;
            && Deliver(files, message, parse).delivery == Appended(name)
            && ExistingList(after, name) == Some(before + [parse(Classify(message).body).value])
            && |ExistingList(after, name).value| == |before| + 1
            && forall n :: n != name ==> ExistingList(after, n) == ExistingList(files, n)
  {
    var frame := Classify(message);
    var name := FileName(frame.key);
    assert name == frame.key + FileExtension;
    assert NullChar !in FileExtension;
    assert !ReadRaises(files, name);
    var items := ExistingList(files, name).value;
    var data := parse(frame.body).value;
    assert Deliver(files, message, parse) == Step(Appended(name), files[name := Stored(Array(items + [data]))]);
  }

  /**
   * A parsed response whose bucket cannot be opened (a NUL in the key) or decoded
   * (its bytes are not text) is dropped: the `ValueError` is caught and nothing is
   * written.
   */
  lemma UnreadableBucketDropped(files: map<string, StoredFile>, message: string, parse: string -> Option<Json>)
    requires Classify(message).Response?
    requires parse(Classify(message).body).Some?
    requires var name := FileName(Classify(message).key);
      NullChar in Classify(message).key || (name in files && files[name].NotText?)
    ensures Deliver(files, message, parse) == Step(ReadFailed(FileName(Classify(message).key)), files)
  {
    var key := Classify(message).key;
    if NullChar in key {
      assert FileName(key)[..|key|] == key;
    }
  }

  /** How `on_message` reads each of a run of frames. */
  function ClassifyAll(messages: seq<string>): (frames: seq<Frame>)
    ensures |frames| == |messages|
    ensures forall i :: 0 <= i < |messages| ==> frames[i] == Classify(messages[i])
  {
    seq(|messages|, i requires 0 <= i < |messages| => Classify(messages[i]))
  }

  /** The directory after handling each frame in turn. */
  function HandleAll(files: map<string, StoredFile>, frames: seq<Frame>, parse: string -> Option<Json>)
    : map<string, StoredFile>
    decreases |frames|
  {
    if frames == [] then files
    else HandleAll(Handle(files, frames[0], parse).files, frames[1..], parse)
  }

  /**
   * Handling a run of frames never removes a file, and a run with no response frame
   * leaves the directory as it was.
   */
  lemma {:induction false} HandleAllKeepsFiles(
    files: map<string, StoredFile>, frames: seq<Frame>, parse: string -> Option<Json>)
    ensures files.Keys <= HandleAll(files, frames, parse).Keys
    ensures (forall i :: 0 <= i < |frames| ==> !frames[i].Response?) ==> HandleAll(files, frames, parse) == files
    decreases |frames|
  {
    if frames != [] {
      var next := Handle(files, frames[0], parse).files;
      HandleAllKeepsFiles(next, frames[1..], parse);
      if forall i :: 0 <= i < |frames| ==> !frames[i].Response? {
        assert !frames[0].Response?;
        assert forall i :: 0 <= i < |frames[1..]| ==> !frames[1..][i].Response? by {
          forall i | 0 <= i < |frames[1..]| ensures !frames[1..][i].Response? {
            assert frames[1..][i] == frames[i + 1];
          }
        }
      }
    }
  }

  /**
   * `on_message` applied to each frame in turn: no file is removed, and a run in which
   * no frame starts with "43" changes nothing.
   */
  function DeliverAll(files: map<string, StoredFile>, messages: seq<string>, parse: string -> Option<Json>)
    : (r: map<string, StoredFile>)
    ensures files.Keys <= r.Keys
    ensures (forall i :: 0 <= i < |messages| ==> !StartsWith(messages[i], ResponseMarker)) ==> r == files
  {
    HandleAllKeepsFiles(files, ClassifyAll(messages), parse);
    HandleAll(files, ClassifyAll(messages), parse)
  }

  /**
   * The parsed body of a frame when it is addressed to the file `name` and that name
   * can be opened; nothing otherwise.
   */
  function RecordOf(frame: Frame, name: string, parse: string -> Option<Json>): (r: seq<Json>)
    ensures |r| <= 1
  {
    match frame
    case Response(key, body) =>
      if FileName(key) == name && NullChar !in name && parse(body).Some? then [parse(body).value] else []
    case _ => []
  }

  /** The parsed bodies, in arrival order, of the frames addressed to the file `name`. */
  function RecordsIn(frames: seq<Frame>, name: string, parse: string -> Option<Json>): (r: seq<Json>)
    ensures |r| <= |frames|
    decreases |frames|
  {
    if frames == [] then []
    else RecordOf(frames[0], name, parse) + RecordsIn(frames[1..], name, parse)
  }

  /** The parsed bodies, in arrival order, of the messages addressed to the file `name`. */
  function RecordsFor(messages: seq<string>, name: string, parse: string -> Option<Json>): seq<Json> {
    RecordsIn(ClassifyAll(messages), name, parse)
  }

  /** One frame adds to the list in `name` exactly its own record, if it has one. */
  lemma HandleOne(files: map<string, StoredFile>, frame: Frame, parse: string -> Option<Json>, name: string)
    requires ExistingList(files, name).Some?
    ensures ExistingList(Handle(files, frame, parse).files, name)
            == Some(ExistingList(files, name).value + RecordOf(frame, name, parse))
  {
    var before := ExistingList(files, name).value;
    assert before + [] == before;
  }

  /** `BucketCollectsItsResponses`, stated over frames that are already read. */
  lemma {:induction false} BucketCollectsItsRecords(
    files: map<string, StoredFile>, frames: seq<Frame>, parse: string -> Option<Json>, name: string)
    requires ExistingList(files, name).Some?
    ensures ExistingList(HandleAll(files, frames, parse), name)
            == Some(ExistingList(files, name).value + RecordsIn(frames, name, parse))
    decreases |frames|
  {
    var before := ExistingList(files, name).value;
    if frames == [] {
      assert before + [] == before;
    } else {
      var next := Handle(files, frames[0], parse).files;
      var first := RecordOf(frames[0], name, parse);
      var later := RecordsIn(frames[1..], name, parse);
      assert ExistingList(next, name) == Some(before + first) by {
        HandleOne(files, frames[0], parse, name);
      }
      assert ExistingList(HandleAll(next, frames[1..], parse), name) == Some(before + first + later) by {
        BucketCollectsItsRecords(next, frames[1..], parse, name);
      }
      assert HandleAll(files, frames, parse) == HandleAll(next, frames[1..], parse);
      assert RecordsIn(frames, name, parse) == first + later;
      assert before + first + later == before + (first + later);
    }
  }

  /**
   * Sequential delivery loses and duplicates nothing: after a run of frames, a bucket
   * that held a list (or nothing) holds that list followed by exactly the parsed
   * bodies of the frames addressed to it, in arrival order.
   */
  lemma BucketCollectsItsResponses(
    files: map<string, StoredFile>, messages: seq<string>, parse: string -> Option<Json>, name: string)
    requires ExistingList(files, name).Some?
    ensures ExistingList(DeliverAll(files, messages, parse), name)
            == Some(ExistingList(files, name).value + RecordsFor(messages, name, parse))
  {
    BucketCollectsItsRecords(files, ClassifyAll(messages), parse, name);
  }

  /**
   * The converse of `Classify`: any frame made of a "43" key without `[` or trailing
   * whitespace, then whitespace, then a body opening with `[`, is split into exactly
   * that key and that body.
   */
  lemma ClassifyResponse(key: string, spaces: string, body: string)
    requires StartsWith(key, ResponseMarker) && JsonStart !in key && !IsSpace(key[|key| - 1])
    requires forall i :: 0 <= i < |spaces| ==> IsSpace(spaces[i])
    requires body != [] && body[0] == JsonStart
    ensures Classify(key + spaces + body) == Response(key, body)
  {
    var m := key + spaces + body;
    var head := key + spaces;
    assert m[..|head|] == head && m[|head|..] == body;
    assert m[..2] == key[..2];
    assert JsonStart !in head by {
      assert !IsSpace(JsonStart);
    }
    assert m[|head|] == JsonStart;
    assert Find(m, JsonStart) == |head|;
    StripTrailingSpaces(key, spaces);
  }

  /**
   * The bucket key keeps the "43" marker: `43007[{"a":1}]` is filed under key `43007`,
   * that is in `43007.json`.
   */
  lemma ResponseExample()
    ensures Classify("43007[{\"a\":1}]") == Response("43007", "[{\"a\":1}]")
  {
    assert "43007" + "" + "[{\"a\":1}]" == "43007[{\"a\":1}]";
    ClassifyResponse("43007", "", "[{\"a\":1}]");
  }

  /** A frame with another marker, and a "43" frame without `[`, route nothing. */
  lemma DroppedExamples()
    ensures Classify("2[1]") == NotResponse
    ensures Classify("43xyz") == NoJsonStart
  {
    assert "2[1]"[0] != ResponseMarker[0];
    var x := "43xyz";
    assert '[' !in x;
  }
}
