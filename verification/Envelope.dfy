/** The encrypted envelope: base64 of a JSON object with ciphertext, tag and nonce, each base64. */
module Envelope {
  import opened AuthHeader
  import opened Base64
  import opened Decimal
  import opened Signature
  import opened Text
  import opened Utf8
  import opened Wrappers

  const TAG_LENGTH := 16
  const NONCE_LENGTH := 12

  datatype Payload = Payload(encryptedData: string, hmac: string, nonce: string)

  /** The value of a member of a JSON object: a string, null, or anything else, of which some do not
      decode at all, such as a number out of range. */
  datatype Value = Text(s: string) | NullValue | OtherValue(decodes: bool)

  datatype Member = Member(name: string, value: Value)

  /** AES-GCM, and the JSON library taking an object apart into its members in order. Null has no
      members; a text that is malformed, or neither an object nor null, has no reading. */
  datatype Library = Library(
    keyFits: seq<Byte> -> bool,
    seal: (seq<Byte>, seq<Byte>, seq<Byte>) -> seq<Byte>,
    open: (seq<Byte>, seq<Byte>, seq<Byte>) -> Option<seq<Byte>>,
    members: seq<Byte> -> Option<seq<Member>>)

  /** What the libraries promise: opening undoes sealing and a sealed text ends in a 16-byte tag
      (section 7.1 of NIST SP 800-38D), and reading a printed object gives its members back. */
  ghost predicate Lawful(lib: Library) {
    SealLaw(lib) && PrintLaw(lib)
  }

  ghost predicate SealLaw(lib: Library) {
    forall key, nonce, plain :: lib.keyFits(key) && |nonce| == NONCE_LENGTH ==>
      |lib.seal(key, nonce, plain)| == |plain| + TAG_LENGTH
      && lib.open(key, nonce, lib.seal(key, nonce, plain)) == Some(plain)
  }

  ghost predicate PrintLaw(lib: Library) {
    forall p: Payload :: IsText(p.encryptedData) && IsText(p.hmac) && IsText(p.nonce) ==>
      lib.members(Printed(p)) == Some(Members(p))
  }

  function Members(p: Payload): seq<Member> {
    [Member("encrypted_data", Text(p.encryptedData)), Member("hmac", Text(p.hmac)), Member("nonce", Text(p.nonce))]
  }

  /** json.Marshal of the payload; base64 text needs no escaping. */
  function Printed(p: Payload): seq<Byte> {
    Bytes("{\"encrypted_data\":\"" + p.encryptedData + "\",\"hmac\":\"" + p.hmac + "\",\"nonce\":\"" + p.nonce + "\"}")
  }

  /** Panicked stands for a slice or nonce length the Go code panics on. */
  datatype CryptoError = BadKeyText | BadAesKey | BadEnvelope | BadMember | Unauthentic | Panicked

  function EncryptData(lib: Library, sharedKey: string, plain: seq<Byte>, nonce: seq<Byte>)
    : Result<string, CryptoError>
  {
    match Decode(sharedKey)
    case None => Err(BadKeyText)
    case Some(key) =>
      if !lib.keyFits(key) then Err(BadAesKey)
      else
        var whole := lib.seal(key, nonce, plain);
        if |whole| < TAG_LENGTH then Err(Panicked) else Ok(Encode(Printed(Packed(whole, nonce))))
  }

  /** The tag is the end of the sealed text. */
  function Packed(whole: seq<Byte>, nonce: seq<Byte>): Payload
    requires |whole| >= TAG_LENGTH
  {
    var tagIndex := |whole| - TAG_LENGTH;
    Payload(Encode(whole[..tagIndex]), Encode(whole[tagIndex..]), Encode(nonce))
  }

  /** Decoding into a map: every value must decode, and names are taken as they are. */
  function Names(members: seq<Member>): Option<set<string>> {
    if exists m :: m in members && m.value == OtherValue(false) then None
    else Some(set m | m in members :: m.name)
  }

  /** A member's name in lower case; no other letters fold to those of the struct's fields. */
  function Folded(name: string): (folded: string)
    ensures |folded| == |name| && forall i :: 0 <= i < |folded| ==> folded[i] == AsciiLower(name[i])
  {
    seq(|name|, i requires 0 <= i < |name| => AsciiLower(name[i]))
  }

  const FIELDS := {"encrypted_data", "hmac", "nonce"}

  /** The text a field ends up with: a later member replaces an earlier one in any letter case, and
      null replaces nothing. */
  function FieldText(members: seq<Member>, field: string): string {
    if members == [] then ""
    else
      var last := members[|members| - 1];
      if Folded(last.name) == field && last.value.Text? then last.value.s
      else FieldText(members[..|members| - 1], field)
  }

  /** Decoding into the payload struct: a field's value must be a string or null, and other members
      are passed over. */
  function FromMembers(members: seq<Member>): Option<Payload> {
    if exists m :: m in members && Folded(m.name) in FIELDS && m.value.OtherValue? then None
    else Some(Payload(FieldText(members, "encrypted_data"), FieldText(members, "hmac"), FieldText(members, "nonce")))
  }

  function ReadPayload(lib: Library, envelope: string): Option<Payload> {
    match Decode(envelope)
    case None => None
    case Some(json) => match lib.members(json)
      case None => None
      case Some(members) => FromMembers(members)
  }

  /** Decrypting with the base64 texts taken apart. */
  function Unseal(lib: Library, key: seq<Byte>, nonce: seq<Byte>, data: seq<Byte>, tag: seq<Byte>)
    : Result<seq<Byte>, CryptoError>
  {
    if !lib.keyFits(key) then Err(BadAesKey)
    else if |nonce| != NONCE_LENGTH then Err(Panicked)
    else match lib.open(key, nonce, data + tag)
      case None => Err(Unauthentic)
      case Some(plain) => Ok(plain)
  }

  function DecryptPayload(lib: Library, sharedKey: string, p: Payload): Result<seq<Byte>, CryptoError> {
    var key, nonce, data, tag := Decode(sharedKey), Decode(p.nonce), Decode(p.encryptedData), Decode(p.hmac);
    if key.None? then Err(BadKeyText)
    else if nonce.None? || data.None? || tag.None? then Err(BadMember)
    else Unseal(lib, key.value, nonce.value, data.value, tag.value)
  }

  function DecryptData(lib: Library, sharedKey: string, envelope: string): Result<seq<Byte>, CryptoError> {
    match ReadPayload(lib, envelope)
    case None => Err(BadEnvelope)
    case Some(p) => DecryptPayload(lib, sharedKey, p)
  }

  predicate IsEncryptedPayload(lib: Library, body: string) {
    var trimmed := TrimSpace(body);
    trimmed != "" && match Decode(trimmed)
      case None => false
      case Some(json) => match lib.members(json)
        case None => false
        case Some(members) => Names(members).Some? && FIELDS <= Names(members).value
  }

  /** The envelope EncryptData builds, and the parts it carries. */
  lemma Sealed(lib: Library, key: seq<Byte>, plain: seq<Byte>, nonce: seq<Byte>)
    returns (p: Payload, data: seq<Byte>, tag: seq<Byte>)
    requires Lawful(lib) && lib.keyFits(key) && |nonce| == NONCE_LENGTH
    ensures EncryptData(lib, Encode(key), plain, nonce) == Ok(Encode(Printed(p)))
    ensures p == Payload(Encode(data), Encode(tag), Encode(nonce))
    ensures |tag| == 16 && data + tag == lib.seal(key, nonce, plain)
  {
    Base64.RoundTrip(key);
    var whole := lib.seal(key, nonce, plain);
    data, tag := whole[..|plain|], whole[|plain|..];
    assert data + tag == whole;
    p := Packed(whole, nonce);
  }

  /** Such an envelope reads back as the payload it was printed from. */
  lemma SealedReads(lib: Library, p: Payload, data: seq<Byte>, tag: seq<Byte>, nonce: seq<Byte>)
    requires Lawful(lib) && p == Payload(Encode(data), Encode(tag), Encode(nonce))
    ensures Decode(Encode(Printed(p))) == Some(Printed(p)) && lib.members(Printed(p)) == Some(Members(p))
  {
    Base64.RoundTrip(Printed(p));
    EncodedText(data);
    EncodedText(tag);
    EncodedText(nonce);
  }

  lemma FoldedField(field: string)
    requires field in FIELDS
    ensures Folded(field) == field
  {
  }

  lemma MembersNamed(p: Payload)
    ensures Names(Members(p)) == Some(FIELDS)
    ensures forall m :: m in Members(p) ==> m.value.Text?
  {
    var m := Members(p);
    assert forall x :: x in m <==> x == m[0] || x == m[1] || x == m[2];
    assert (set x | x in m :: x.name) == FIELDS by {
      assert m[0] in m && m[1] in m && m[2] in m;
    }
  }

  lemma MembersText(p: Payload, field: string)
    requires field in FIELDS
    ensures FieldText(Members(p), field) ==
      if field == "encrypted_data" then p.encryptedData else if field == "hmac" then p.hmac else p.nonce
  {
    FoldedField("encrypted_data");
    FoldedField("hmac");
    FoldedField("nonce");
    var data, tag := Member("encrypted_data", Text(p.encryptedData)), Member("hmac", Text(p.hmac));
    LaterMemberWins([], data.name, p.encryptedData, field);
    LaterMemberWins([data], tag.name, p.hmac, field);
    LaterMemberWins([data, tag], "nonce", p.nonce, field);
    assert [] + [data] == [data] && [data] + [tag] == [data, tag];
    assert [data, tag] + [Member("nonce", Text(p.nonce))] == Members(p);
  }

  lemma MembersBack(p: Payload)
    ensures FromMembers(Members(p)) == Some(p)
  {
    MembersNamed(p);
    MembersText(p, "encrypted_data");
    MembersText(p, "hmac");
    MembersText(p, "nonce");
  }

  lemma ReadsBack(lib: Library, p: Payload, data: seq<Byte>, tag: seq<Byte>, nonce: seq<Byte>)
    requires Lawful(lib) && p == Payload(Encode(data), Encode(tag), Encode(nonce))
    ensures ReadPayload(lib, Encode(Printed(p))) == Some(p)
  {
    SealedReads(lib, p, data, tag, nonce);
    MembersBack(p);
  }

  /** A printed envelope of any three parts decrypts as the parts do. */
  lemma PartsDecrypt(lib: Library, key: seq<Byte>, p: Payload, data: seq<Byte>, tag: seq<Byte>, nonce: seq<Byte>)
    requires Lawful(lib) && p == Payload(Encode(data), Encode(tag), Encode(nonce))
    ensures DecryptData(lib, Encode(key), Encode(Printed(p))) == Unseal(lib, key, nonce, data, tag)
  {
    ReadsBack(lib, p, data, tag, nonce);
    Base64.RoundTrip(key);
    Base64.RoundTrip(data);
    Base64.RoundTrip(tag);
    Base64.RoundTrip(nonce);
  }

  /** Decrypting undoes encrypting, for every plaintext, nonce and shared key. */
  lemma EnvelopeRoundTrip(lib: Library, key: seq<Byte>, plain: seq<Byte>, nonce: seq<Byte>)
    requires Lawful(lib) && lib.keyFits(key) && |nonce| == NONCE_LENGTH
    ensures EncryptData(lib, Encode(key), plain, nonce).Ok?
    ensures DecryptData(lib, Encode(key), EncryptData(lib, Encode(key), plain, nonce).value) == Ok(plain)
  {
    var p, data, tag := Sealed(lib, key, plain, nonce);
    PartsDecrypt(lib, key, p, data, tag, nonce);
  }

  /** Three printed parts are recognised as an envelope, with or without blanks around them. */
  lemma PrintedRecognised(lib: Library, p: Payload, data: seq<Byte>, tag: seq<Byte>, nonce: seq<Byte>,
                          before: string, after: string)
    requires Lawful(lib) && p == Payload(Encode(data), Encode(tag), Encode(nonce))
    requires (forall c :: c in before ==> IsSpace(c)) && (forall c :: c in after ==> IsSpace(c))
    ensures var text := Encode(Printed(p));
      IsEncryptedPayload(lib, before + text + after) && TrimSpace(before + text + after) == text
  {
    SealedReads(lib, p, data, tag, nonce);
    MembersNamed(p);
    PrintedStarts(p);
    EncodedText(Printed(p));
    EncodedIsWritable(Printed(p));
    TrimPadded(before, Encode(Printed(p)), after, IsSpace);
  }

  lemma PrintedStarts(p: Payload)
    ensures Printed(p) != []
  {
  }

  /** Every envelope is recognised, with or without blanks around it. */
  lemma EnvelopeRecognised(lib: Library, key: seq<Byte>, plain: seq<Byte>, nonce: seq<Byte>,
                           before: string, after: string)
    requires Lawful(lib) && lib.keyFits(key) && |nonce| == NONCE_LENGTH
    requires (forall c :: c in before ==> IsSpace(c)) && (forall c :: c in after ==> IsSpace(c))
    ensures EncryptData(lib, Encode(key), plain, nonce).Ok?
    ensures var text := EncryptData(lib, Encode(key), plain, nonce).value;
      IsEncryptedPayload(lib, before + text + after) && TrimSpace(before + text + after) == text
  {
    var p, data, tag := Sealed(lib, key, plain, nonce);
    PrintedRecognised(lib, p, data, tag, nonce, before, after);
  }

  /** A body with any character that is neither blank nor base64 is never taken for an envelope. */
  lemma ForeignCharPasses(lib: Library, body: string, c: char)
    requires c in body && !IsSpace(c) && !InAlphabet(c) && c != '='
    ensures !IsEncryptedPayload(lib, body)
  {
    TrimKeeps(body, IsSpace);
    DecodesInAlphabet(TrimSpace(body));
  }

  /** A body whose trimmed text starts with a brace is never taken for an envelope. */
  lemma PlainJsonPasses(lib: Library, body: string)
    requires TrimSpace(body) != "" && TrimSpace(body)[0] == '{'
    ensures !IsEncryptedPayload(lib, body)
  {
    DecodesInAlphabet(TrimSpace(body));
  }

  /** The members of an envelope: every value decodes, and the three names are there as they stand. */
  ghost predicate EnvelopeMembers(members: seq<Member>) {
    && (forall m :: m in members ==> m.value != OtherValue(false))
    && (exists m :: m in members && m.name == "encrypted_data")
    && (exists m :: m in members && m.name == "hmac")
    && (exists m :: m in members && m.name == "nonce")
  }

  /** A body is taken for an envelope exactly when it is, up to blanks around it, the base64 text of a
      JSON object with such members. */
  lemma RecognisedExactly(lib: Library, body: string)
    ensures IsEncryptedPayload(lib, body) <==>
      exists json, members ::
        TrimSpace(body) != "" && Decode(TrimSpace(body)) == Some(json) && lib.members(json) == Some(members)
        && EnvelopeMembers(members)
  {
    var json := Decode(TrimSpace(body));
    if json.Some? && lib.members(json.value).Some? {
      NamesExactly(lib.members(json.value).value);
    }
  }

  lemma NamesExactly(members: seq<Member>)
    ensures Names(members).Some? && FIELDS <= Names(members).value <==> EnvelopeMembers(members)
  {
    if EnvelopeMembers(members) {
      assert forall m :: m in members ==> m.name in Names(members).value;
    }
    if Names(members).Some? && FIELDS <= Names(members).value {
      assert "encrypted_data" in FIELDS && "hmac" in FIELDS && "nonce" in FIELDS;
    }
  }

  /** A null leaves a field as it was. */
  lemma NullKeeps(members: seq<Member>, name: string, field: string)
    ensures FieldText(members + [Member(name, NullValue)], field) == FieldText(members, field)
  {
    assert (members + [Member(name, NullValue)])[..|members|] == members;
  }

  /** The struct does not decode exactly when some member named like a field holds anything but a
      string or null; members with other names do not matter. */
  lemma MembersRefused(members: seq<Member>)
    ensures FromMembers(members) == None <==>
      exists m :: m in members && Folded(m.name) in {"encrypted_data", "hmac", "nonce"}
                  && !m.value.Text? && !m.value.NullValue?
  {
  }

  /** Encrypting with lawful libraries succeeds exactly for a key that decodes and fits. */
  lemma EncryptsExactly(lib: Library, sharedKey: string, plain: seq<Byte>, nonce: seq<Byte>)
    requires Lawful(lib) && |nonce| == NONCE_LENGTH
    ensures EncryptData(lib, sharedKey, plain, nonce).Ok? <==>
      Decode(sharedKey).Some? && lib.keyFits(Decode(sharedKey).value)
  {
  }

  // ---- The incoming middleware ----

  class HttpRequest {
    const authorization: string
    var body: seq<Byte>
    var contentLength: int

    constructor (authorization: string, body: seq<Byte>)
      ensures this.authorization == authorization && this.body == body && contentLength == |body|
    {
      this.authorization, this.body, contentLength := authorization, body, |body|;
    }
  }

  const STATUS_BAD_REQUEST := 400
  const STATUS_INTERNAL_ERROR := 500

  /** Where the shared key comes from: the registry's key for a subscriber, then key agreement. */
  datatype Keys = Keys(lookup: KeyId -> Option<string>, agree: string -> Option<string>)

  /** What becomes of a request: its body goes on to the next handler, it is refused with a status,
      or the handler panics and does neither. */
  datatype Handling = Passed(body: seq<Byte>) | Refused(status: int) | Crashed

  function Opened(decrypted: Result<seq<Byte>, CryptoError>): Handling {
    match decrypted
    case Ok(plain) => Passed(plain)
    case Err(Panicked) => Crashed
    case Err(_) => Refused(STATUS_BAD_REQUEST)
  }

  function Incoming(lib: Library, keys: Keys, authorization: string, body: seq<Byte>): Handling {
    if !IsEncryptedPayload(lib, AsText(body)) then Passed(body)
    else
      var sender := if authorization == "" then Err(EmptyHeader) else FirstKeyId(Parts(authorization));
      if sender.Err? then Refused(STATUS_BAD_REQUEST)
      else
        var public := keys.lookup(sender.value);
        if public.None? || public.value == "" then Refused(STATUS_INTERNAL_ERROR)
        else
          var shared := keys.agree(public.value);
          if shared.None? then Refused(STATUS_INTERNAL_ERROR)
          else Opened(DecryptData(lib, shared.value, TrimSpace(AsText(body))))
  }

  /** The handler's answers, case by case: plain bodies pass; an envelope is refused with 400 when its
      sender cannot be read, with 500 when the registry or the key agreement has no key for it, and
      with 400 when it does not decrypt. */
  lemma IncomingExactly(lib: Library, keys: Keys, authorization: string, body: seq<Byte>)
    ensures var handling, sender := Incoming(lib, keys, authorization, body), FirstKeyId(Parts(authorization));
      && (!IsEncryptedPayload(lib, AsText(body)) ==> handling == Passed(body))
      && (IsEncryptedPayload(lib, AsText(body)) ==>
            && (authorization == "" || sender.Err? ==> handling == Refused(400))
            && (authorization != "" && sender.Ok? ==>
                  var public := keys.lookup(sender.value);
                  && (public == None || public == Some("") ==> handling == Refused(500))
                  && (public.Some? && public.value != "" ==>
                        var shared := keys.agree(public.value);
                        && (shared == None ==> handling == Refused(500))
                        && (shared.Some? ==>
                              var decrypted := DecryptData(lib, shared.value, TrimSpace(AsText(body)));
                              handling == if decrypted.Ok? then Passed(decrypted.value)
                                          else if decrypted == Err(Panicked) then Crashed
                                          else Refused(400)))))
  {
  }

  /** The handler: when the request goes on, its body is replaced if it was an envelope; a request
      that is refused, or that the handler panics on, keeps its body. */
  method Handle(r: HttpRequest, lib: Library, keys: Keys) returns (handling: Handling)
    modifies r
    ensures handling == Incoming(lib, keys, r.authorization, old(r.body))
    ensures r.body == if handling.Passed? then handling.body else old(r.body)
    ensures r.contentLength == if handling.Passed? && IsEncryptedPayload(lib, AsText(old(r.body)))
                               then |handling.body| else old(r.contentLength)
  {
    if !IsEncryptedPayload(lib, AsText(r.body)) {
      return Passed(r.body);
    }
    var sender := ParseKeyId(r.authorization);
    if sender.Err? {
      return Refused(STATUS_BAD_REQUEST);
    }
    var public := keys.lookup(sender.value);
    if public.None? {
      return Refused(STATUS_INTERNAL_ERROR);
    }
    if public.value == "" {
      return Refused(STATUS_INTERNAL_ERROR);
    }
    var shared := keys.agree(public.value);
    if shared.None? {
      return Refused(STATUS_INTERNAL_ERROR);
    }
    var decrypted := DecryptData(lib, shared.value, TrimSpace(AsText(r.body)));
    if decrypted == Err(Panicked) {
      return Crashed;
    }
    if decrypted.Err? {
      return Refused(STATUS_BAD_REQUEST);
    }
    r.body := decrypted.value;
    r.contentLength := |decrypted.value|;
    return Passed(decrypted.value);
  }

  /** The shared key a request leads to: its sender is named, known to the registry and agrees a key. */
  function SharedFor(keys: Keys, authorization: string): Option<string> {
    var sender := if authorization == "" then Err(EmptyHeader) else FirstKeyId(Parts(authorization));
    if sender.Err? then None
    else
      var public := keys.lookup(sender.value);
      if public.None? || public.value == "" then None else keys.agree(public.value)
  }

  /** The envelope can be taken apart and its key used, but its nonce has the wrong length. */
  predicate BadNonce(lib: Library, sharedKey: string, envelope: string) {
    var p := ReadPayload(lib, envelope);
    && p.Some?
    && Decode(sharedKey).Some? && lib.keyFits(Decode(sharedKey).value)
    && Decode(p.value.encryptedData).Some? && Decode(p.value.hmac).Some?
    && Decode(p.value.nonce).Some? && |Decode(p.value.nonce).value| != NONCE_LENGTH
  }

  lemma PanicsExactly(lib: Library, sharedKey: string, envelope: string)
    ensures DecryptData(lib, sharedKey, envelope) == Err(Panicked) <==> BadNonce(lib, sharedKey, envelope)
  {
  }

  /** The handler panics exactly on an envelope whose sender and shared key resolve, whose texts all
      decode under a key that fits, and whose nonce is not 12 bytes. */
  lemma CrashExactly(lib: Library, keys: Keys, authorization: string, body: seq<Byte>)
    ensures Incoming(lib, keys, authorization, body) == Crashed <==>
      && IsEncryptedPayload(lib, AsText(body))
      && SharedFor(keys, authorization).Some?
      && BadNonce(lib, SharedFor(keys, authorization).value, TrimSpace(AsText(body)))
  {
    var shared := SharedFor(keys, authorization);
    if shared.Some? { PanicsExactly(lib, shared.value, TrimSpace(AsText(body))); }
  }

  /** An envelope that arrives as a request body. */
  lemma ArrivesAs(lib: Library, keys: Keys, authorization: string, text: string, shared: string)
    requires TrimSpace(text) == text && IsEncryptedPayload(lib, text) && SharedFor(keys, authorization) == Some(shared)
    ensures Incoming(lib, keys, authorization, Bytes(text)) == Opened(DecryptData(lib, shared, text))
  {
    Utf8.RoundTrip(text);
  }

  lemma PartsArrive(lib: Library, keys: Keys, authorization: string, key: seq<Byte>,
                    p: Payload, data: seq<Byte>, tag: seq<Byte>, nonce: seq<Byte>, text: string)
    requires Lawful(lib) && SharedFor(keys, authorization) == Some(Encode(key))
    requires p == Payload(Encode(data), Encode(tag), Encode(nonce)) && text == Encode(Printed(p))
    ensures Incoming(lib, keys, authorization, Bytes(text)) == Opened(Unseal(lib, key, nonce, data, tag))
  {
    PrintedRecognised(lib, p, data, tag, nonce, "", "");
    assert "" + text + "" == text;
    ArrivesAs(lib, keys, authorization, text, Encode(key));
    PartsDecrypt(lib, key, p, data, tag, nonce);
  }

  /** What the handler makes of three parts under a key that fits. */
  function Outcome(lib: Library, key: seq<Byte>, nonce: seq<Byte>, data: seq<Byte>, tag: seq<Byte>): Handling {
    var plain := lib.open(key, nonce, data + tag);
    if |nonce| != NONCE_LENGTH then Crashed
    else if plain.None? then Refused(STATUS_BAD_REQUEST)
    else Passed(plain.value)
  }

  lemma UnsealOutcome(lib: Library, key: seq<Byte>, nonce: seq<Byte>, data: seq<Byte>, tag: seq<Byte>)
    requires lib.keyFits(key)
    ensures Opened(Unseal(lib, key, nonce, data, tag)) == Outcome(lib, key, nonce, data, tag)
  {
  }

  /** A sender whose shared key resolves can send any three parts: the nonce's length alone decides
      whether the handler panics, and otherwise the library decides. */
  lemma NonceLengthDecides(lib: Library, keys: Keys, authorization: string, key: seq<Byte>,
                           p: Payload, data: seq<Byte>, tag: seq<Byte>, nonce: seq<Byte>, text: string)
    requires Lawful(lib) && lib.keyFits(key) && SharedFor(keys, authorization) == Some(Encode(key))
    requires p == Payload(Encode(data), Encode(tag), Encode(nonce)) && text == Encode(Printed(p))
    ensures Incoming(lib, keys, authorization, Bytes(text)) == Outcome(lib, key, nonce, data, tag)
  {
    PartsArrive(lib, keys, authorization, key, p, data, tag, nonce, text);
    UnsealOutcome(lib, key, nonce, data, tag);
  }

  /** So an envelope with no nonce at all makes it panic. */
  lemma EmptyNonceCrashes(lib: Library, keys: Keys, authorization: string, key: seq<Byte>,
                          data: seq<Byte>, tag: seq<Byte>, text: string)
    requires Lawful(lib) && lib.keyFits(key) && SharedFor(keys, authorization) == Some(Encode(key))
    requires text == Encode(Printed(Payload(Encode(data), Encode(tag), "")))
    ensures Incoming(lib, keys, authorization, Bytes(text)) == Crashed
  {
    assert Encode([]) == "";
    NonceLengthDecides(lib, keys, authorization, key, Payload(Encode(data), Encode(tag), ""), data, tag, [], text);
  }

  /** Adding a member whose name folds to a field replaces what the field would have been. */
  lemma LaterMemberWins(members: seq<Member>, name: string, s: string, field: string)
    ensures FieldText(members + [Member(name, Text(s))], field) ==
      if Folded(name) == field then s else FieldText(members, field)
  {
    assert (members + [Member(name, Text(s))])[..|members|] == members;
  }

  /** Any object with the three names and a reading arrives as what that reading decrypts to. */
  lemma ObjectArrives(lib: Library, keys: Keys, authorization: string, shared: string,
                      json: seq<Byte>, members: seq<Member>, p: Payload, text: string)
    requires json != [] && text == Encode(json) && lib.members(json) == Some(members)
    requires Names(members).Some? && FIELDS <= Names(members).value && FromMembers(members) == Some(p)
    requires SharedFor(keys, authorization) == Some(shared)
    ensures Incoming(lib, keys, authorization, Bytes(text)) == Opened(DecryptPayload(lib, shared, p))
  {
    EncodedText(json);
    EncodedIsWritable(json);
    TrimPadded("", text, "", IsSpace);
    assert "" + text + "" == text;
    Base64.RoundTrip(json);
    ArrivesAs(lib, keys, authorization, text, shared);
  }

  lemma OverriddenReads(p: Payload, members: seq<Member>)
    requires members == Members(p) + [Member("NONCE", Text(""))]
    ensures Names(members).Some? && FIELDS <= Names(members).value
    ensures FromMembers(members) == Some(p.(nonce := ""))
  {
    MembersBack(p);
    MembersNamed(p);
    assert Folded("NONCE") == "nonce";
    assert forall m :: m in members <==> m in Members(p) || m == Member("NONCE", Text(""));
    assert Names(members).value == Names(Members(p)).value + {"NONCE"};
    LaterMemberWins(Members(p), "NONCE", "", "encrypted_data");
    LaterMemberWins(Members(p), "NONCE", "", "hmac");
    LaterMemberWins(Members(p), "NONCE", "", "nonce");
  }

  /** And so does one whose good nonce is overridden by a later member in capitals. */
  lemma OverriddenNonceCrashes(lib: Library, keys: Keys, authorization: string, key: seq<Byte>, json: seq<Byte>,
                               members: seq<Member>, p: Payload, data: seq<Byte>, tag: seq<Byte>, text: string)
    requires lib.keyFits(key) && SharedFor(keys, authorization) == Some(Encode(key))
    requires p.encryptedData == Encode(data) && p.hmac == Encode(tag)
    requires json != [] && text == Encode(json) && lib.members(json) == Some(members)
    requires members == Members(p) + [Member("NONCE", Text(""))]
    ensures Incoming(lib, keys, authorization, Bytes(text)) == Crashed
  {
    var read := p.(nonce := "");
    assert DecryptPayload(lib, Encode(key), read) == Err(Panicked) by {
      EmptyNonceUnseals(lib, key, read, data, tag);
    }
    assert Incoming(lib, keys, authorization, Bytes(text)) == Opened(DecryptPayload(lib, Encode(key), read)) by {
      OverriddenReads(p, members);
      ObjectArrives(lib, keys, authorization, Encode(key), json, members, read, text);
    }
  }

  lemma EmptyNonceUnseals(lib: Library, key: seq<Byte>, p: Payload, data: seq<Byte>, tag: seq<Byte>)
    requires lib.keyFits(key) && p == Payload(Encode(data), Encode(tag), "")
    ensures DecryptPayload(lib, Encode(key), p) == Err(Panicked)
  {
    Base64.RoundTrip(key);
    Base64.RoundTrip(data);
    Base64.RoundTrip(tag);
    assert Decode("") == Some([]);
  }

  /** An envelope that arrives is opened to its plaintext; one made by EncryptData never makes the
      handler panic. */
  lemma EnvelopeArrives(lib: Library, keys: Keys, sharedKey: seq<Byte>, plain: seq<Byte>, nonce: seq<Byte>,
                        authorization: string)
    requires Lawful(lib) && lib.keyFits(sharedKey) && |nonce| == NONCE_LENGTH
    requires SharedFor(keys, authorization) == Some(Encode(sharedKey))
    ensures EncryptData(lib, Encode(sharedKey), plain, nonce).Ok?
    ensures var sent := EncryptData(lib, Encode(sharedKey), plain, nonce).value;
      Incoming(lib, keys, authorization, Bytes(sent)) == Passed(plain)
  {
    var p, data, tag := Sealed(lib, sharedKey, plain, nonce);
    NonceLengthDecides(lib, keys, authorization, sharedKey, p, data, tag, nonce, Encode(Printed(p)));
    assert lib.open(sharedKey, nonce, data + tag) == Some(plain);
  }

  /** A stray byte after an envelope is not trimmed: the body passes on as it is. */
  lemma StrayBytePasses(lib: Library, keys: Keys, authorization: string, text: string, b: Byte)
    requires Continues(b)
    ensures Incoming(lib, keys, authorization, Bytes(text) + [b]) == Passed(Bytes(text) + [b])
  {
    StrayByte(text, b);
    ForeignCharPasses(lib, text + [REPLACEMENT], REPLACEMENT);
  }

  /** Sign, encrypt, receive, validate: with a common shared key the middleware passes on exactly the
      signed plaintext, so the signature made over it holds at every time in its window and no other. */
  lemma SignedEnvelopeArrives(c: Crypto, lib: Library, keys: Keys, privateKey: string, seed: seq<Byte>,
                              sharedKey: seq<Byte>, plain: seq<Byte>, nonce: seq<Byte>, params: seq<Param>, i: nat,
                              sender: KeyId, algorithm: string, created: int, expires: int, text: string, now: int)
    requires Correct(c) && Lawful(lib) && lib.keyFits(sharedKey) && |nonce| == NONCE_LENGTH
    requires Seeds(privateKey, seed) && IsInt64(created) && IsInt64(expires)
    requires (forall p :: p in params ==> Writable(p)) && DistinctKeys(params)
    requires Carries(params, "created", Itoa(created)) && Carries(params, "expires", Itoa(expires))
    requires Sign(c, plain, privateKey, created, expires) == Ok(text) && Carries(params, "signature", text)
    requires i < |params| && params[i].key == "keyId"
    requires params[i].value == sender.subscriber + "|" + sender.key + "|" + algorithm
    requires '|' !in sender.subscriber && '|' !in sender.key
    requires keys.lookup(sender).Some? && keys.lookup(sender).value != ""
    requires keys.agree(keys.lookup(sender).value) == Some(Encode(sharedKey))
    ensures EncryptData(lib, Encode(sharedKey), plain, nonce).Ok?
    ensures var sent := EncryptData(lib, Encode(sharedKey), plain, nonce).value;
      Incoming(lib, keys, Render(params), Bytes(sent)) == Passed(plain)
    ensures Validate(c, plain, Render(params), Encode(c.publicKey(seed)), now) ==
      if created <= now <= expires then Valid else OutsideWindow
  {
    KeyIdRoundTrip(params, i, sender.subscriber, sender.key, algorithm);
    EnvelopeArrives(lib, keys, sharedKey, plain, nonce, Render(params));
    SignedHeaderExactly(c, plain, privateKey, seed, params, created, expires, text, now);
  }
}
