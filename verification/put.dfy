/** The "amazon s3 put" node's input handler up to the `putObject` call:
    resolving each parameter, rejecting an empty bucket or file name, and
    assembling the request settings. */
module Put {
  import opened JsValues

  /** The node's own configuration. `bucket` is copied from the editor as is
      (and may be undefined); the other strings default to "" and
      `isBase64` to false. */
  datatype NodeConfig = NodeConfig(
    bucket: Option<string>,
    filename: string,
    localFilename: string,
    contentType: string,
    contentEncoding: string,
    isBase64: bool,
    acl: string)

  /** The fields of an inbound message the handler reads; each may be
      undefined. */
  datatype Message = Message(
    bucket: Option<string>,
    filename: Option<string>,
    localFilename: Option<string>,
    contentType: Option<string>,
    contentEncoding: Option<string>,
    isBase64: bool,
    acl: Option<string>,
    payload: Option<string>)

  /** The object body: a stream of a local file, the payload's bytes, or the
      payload decoded from base64. */
  datatype Body = FileStream(path: string) | Bytes(text: string) | Base64(encoded: string)

  /** The `settings` handed to `putObject`; `None` is an absent property or
      an undefined value. */
  datatype Request = Request(
    bucket: Option<string>,
    key: Option<string>,
    acl: Option<string>,
    contentEncoding: Option<string>,
    contentType: Option<string>,
    body: Body)

  /** What one input message leads to. */
  datatype Outcome = NoBucket | NoFilename | NothingToUpload | Upload(request: Request)

  /** `node.x || msg.x`: the node's value when it is a non-empty string,
      otherwise the message's value, whatever it is. */
  predicate ResolvesTo(node: Option<string>, msg: Option<string>, r: Option<string>)
  {
    if Truthy(node) then r == node else r == msg
  }

  /** An optional request property: present exactly when the resolved value
      is truthy, and then equal to it. */
  predicate SetWhenTruthy(resolved: Option<string>, prop: Option<string>)
  {
    if Truthy(resolved) then prop == resolved else prop == None
  }

  const DataImagePrefix: string := "data:image/"
  const Base64Marker: string := ";base64,"

  /** A character of the regular-expression class `\w`. */
  predicate IsWordChar(c: char)
  {
    ('a' <= c <= 'z') || ('A' <= c <= 'Z') || ('0' <= c <= '9') || c == '_'
  }

  /** The payload's first `k` characters are `data:image/<word>;base64,`
      with a non-empty run of `\w` characters as `<word>`. */
  predicate HasDataUriPrefix(p: string, k: int)
  {
    && |DataImagePrefix| + 1 + |Base64Marker| <= k <= |p|
    && p[..|DataImagePrefix|] == DataImagePrefix
    && (forall i :: |DataImagePrefix| <= i < k - |Base64Marker| ==> IsWordChar(p[i]))
    && p[k - |Base64Marker|..k] == Base64Marker
  }

  /** Length of the run of `\w` characters at the start of `s`. */
  function WordRun(s: string): (n: nat)
    ensures n <= |s|
    ensures forall i :: 0 <= i < n ==> IsWordChar(s[i])
    ensures n < |s| ==> !IsWordChar(s[n])
  {
    if |s| == 0 || !IsWordChar(s[0]) then 0 else 1 + WordRun(s[1..])
  }

  /** `p.replace(/^data:image\/\w+;base64,/, "")`: drops a leading data-URI
      prefix. The result is a suffix of the payload; it is shorter exactly
      when the payload starts with such a prefix, and what was removed is
      the only prefix of that shape. */
  function StripDataUri(p: string): (r: string)
    ensures |r| <= |p| && r == p[|p| - |r|..]
    ensures |r| < |p| ==> HasDataUriPrefix(p, |p| - |r|)
    ensures forall k :: HasDataUriPrefix(p, k) ==> k == |p| - |r|
  {
    var start := |DataImagePrefix|;
    if |p| >= start && p[..start] == DataImagePrefix then
      var n := WordRun(p[start..]);
      var k := start + n + |Base64Marker|;
      OnlyPrefixLength(p);
      if n > 0 && k <= |p| && p[start + n..k] == Base64Marker then p[k..] else p
    else p
  }

  /** After `data:image/`, the word run fixes the one prefix length that can
      match: the run's end plus the `;base64,` marker. */
  lemma OnlyPrefixLength(p: string)
    requires |p| >= |DataImagePrefix|
    ensures var n := WordRun(p[|DataImagePrefix|..]);
            forall i :: |DataImagePrefix| <= i < |DataImagePrefix| + n ==> IsWordChar(p[i])
    ensures forall k :: HasDataUriPrefix(p, k) ==> k == |DataImagePrefix| + WordRun(p[|DataImagePrefix|..]) + |Base64Marker|
  {
    var start := |DataImagePrefix|;
    var rest := p[start..];
    var n := WordRun(rest);
    forall i | start <= i < start + n ensures IsWordChar(p[i]) {
      assert rest[i - start] == p[i];
    }
    forall k | HasDataUriPrefix(p, k) ensures k == start + n + |Base64Marker| {
      var w := k - |Base64Marker|;
      assert p[w] == p[w..k][0] == ';';
    }
  }

  /** A payload carrying a data-URI prefix loses exactly that prefix. */
  lemma {:induction false} StripDataUriRoundTrip(word: string, data: string)
    requires |word| > 0 && forall i :: 0 <= i < |word| ==> IsWordChar(word[i])
    ensures StripDataUri(DataImagePrefix + word + Base64Marker + data) == data
  {
    var p := DataImagePrefix + word + Base64Marker + data;
    var k := |DataImagePrefix| + |word| + |Base64Marker|;
    assert p[..|DataImagePrefix|] == DataImagePrefix;
    assert p[k - |Base64Marker|..k] == Base64Marker;
    assert forall i :: |DataImagePrefix| <= i < k - |Base64Marker| ==> p[i] == word[i - |DataImagePrefix|];
    assert HasDataUriPrefix(p, k);
    assert p[k..] == data;
  }

  /** The handler for one message: resolve the parameters (node first, then
      message), reject an empty bucket or file name, then upload either the
      local file or the payload. A message with neither is dropped. */
  function HandleInput(node: NodeConfig, msg: Message): (o: Outcome)
    ensures o.NoBucket? <==> Or(node.bucket, msg.bucket) == Some("")
    ensures o.NoFilename? <==>
              Or(node.bucket, msg.bucket) != Some("") && Or(Some(node.filename), msg.filename) == Some("")
    ensures o.NothingToUpload? <==>
              && Or(node.bucket, msg.bucket) != Some("") && Or(Some(node.filename), msg.filename) != Some("")
              && !Truthy(Or(Some(node.localFilename), msg.localFilename)) && msg.payload.None?
    ensures o.Upload? ==>
              && o.request.bucket != Some("") && o.request.key != Some("")
              && ResolvesTo(node.bucket, msg.bucket, o.request.bucket)
              && ResolvesTo(Some(node.filename), msg.filename, o.request.key)
              && SetWhenTruthy(Or(Some(node.acl), msg.acl), o.request.acl)
    ensures o.Upload? && Truthy(Or(Some(node.localFilename), msg.localFilename)) ==>
              && o.request.body == FileStream(Or(Some(node.localFilename), msg.localFilename).value)
              && o.request.contentEncoding == None && o.request.contentType == None
    ensures o.Upload? && !Truthy(Or(Some(node.localFilename), msg.localFilename)) ==>
              && msg.payload.Some?
              && SetWhenTruthy(Or(Some(node.contentEncoding), msg.contentEncoding), o.request.contentEncoding)
              && SetWhenTruthy(Or(Some(node.contentType), msg.contentType), o.request.contentType)
              && o.request.body == if node.isBase64 || msg.isBase64
                                   then Base64(StripDataUri(msg.payload.value))
                                   else Bytes(msg.payload.value)
  {
    var bucket := Or(node.bucket, msg.bucket);
    var acl := Or(Some(node.acl), msg.acl);
    var filename := Or(Some(node.filename), msg.filename);
    var localFilename := Or(Some(node.localFilename), msg.localFilename);
    var contentEncoding := Or(Some(node.contentEncoding), msg.contentEncoding);
    var contentType := Or(Some(node.contentType), msg.contentType);
    var isBase64 := node.isBase64 || msg.isBase64;
    if bucket == Some("") then NoBucket
    else if filename == Some("") then NoFilename
    else
      var aclProp := if Truthy(acl) then acl else None;
      if Truthy(localFilename) then
        Upload(Request(bucket, filename, aclProp, None, None, FileStream(localFilename.value)))
      else if msg.payload.Some? then
        var encodingProp := if Truthy(contentEncoding) then contentEncoding else None;
        var body := if isBase64 then Base64(StripDataUri(msg.payload.value)) else Bytes(msg.payload.value);
        var typeProp := if Truthy(contentType) then contentType else None;
        Upload(Request(bucket, filename, aclProp, encodingProp, typeProp, body))
      else NothingToUpload
  }

  /** Only the empty string is rejected: a bucket and file name that are
      undefined on both node and message still lead to an upload, with
      undefined `Bucket` and `Key`. */
  lemma UndefinedTargetIsNotRejected(node: NodeConfig, msg: Message)
    requires node.bucket == None && msg.bucket == None
    requires node.filename == "" && msg.filename == None
    requires msg.payload.Some?
    ensures HandleInput(node, msg).Upload?
    ensures HandleInput(node, msg).request.bucket == None
    ensures HandleInput(node, msg).request.key == None
  {
  }

  /** A bucket and file name configured on the node take precedence: the
      message's values for them make no difference. */
  lemma NodeTargetOverridesMessage(node: NodeConfig, msg: Message, otherBucket: Option<string>, otherFilename: Option<string>)
    requires Truthy(node.bucket) && node.filename != ""
    ensures HandleInput(node, msg) == HandleInput(node, msg.(bucket := otherBucket, filename := otherFilename))
    ensures HandleInput(node, msg).Upload? || HandleInput(node, msg).NothingToUpload?
  {
  }
}
