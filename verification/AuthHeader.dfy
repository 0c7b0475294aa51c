/** The Authorization header: a list of key="value" parameters, as two readers parse it. */
module AuthHeader {
  import opened Decimal
  import opened Text
  import opened Wrappers

  const PREFIX := "Signature "

  predicate IsQuote(c: char) {
    c == '"'
  }

  /** The first '=' splits a part; a part without one is ignored. */
  function CutAtEquals(s: string): Option<(string, string)> {
    if s == "" then None
    else if s[0] == '=' then Some(("", s[1..]))
    else match CutAtEquals(s[1..])
      case None => None
      case Some((key, value)) => Some(([s[0]] + key, value))
  }

  function ParsePart(part: string): Option<(string, string)> {
    match CutAtEquals(TrimSpace(part))
    case None => None
    case Some((key, value)) => Some((TrimSpace(key), Trim(value, IsQuote)))
  }

  function Parts(header: string): seq<string> {
    Split(if PREFIX <= header then header[|PREFIX|..] else header, ',')
  }

  /** Key to value over some parts; a repeated key takes its last value. */
  function Collected(parts: seq<string>): map<string, string> {
    if parts == [] then map[]
    else
      var before := Collected(parts[..|parts| - 1]);
      match ParsePart(parts[|parts| - 1])
      case None => before
      case Some((key, value)) => before[key := value]
  }

  function Get(m: map<string, string>, key: string): string {
    if key in m then m[key] else ""
  }

  datatype HeaderError = BadCreated | BadExpires | NoSignature

  datatype Signed = Signed(created: int, expires: int, signature: string)

  function Read(fields: map<string, string>): Result<Signed, HeaderError> {
    match (ParseInt(Get(fields, "created")), ParseInt(Get(fields, "expires")))
    case (None, _) => Err(BadCreated)
    case (Some(_), None) => Err(BadExpires)
    case (Some(created), Some(expires)) =>
      if Get(fields, "signature") == "" then Err(NoSignature)
      else Ok(Signed(created, expires, Get(fields, "signature")))
  }

  /** The signature validator's reader. */
  method ParseAuthHeader(header: string) returns (result: Result<Signed, HeaderError>)
    ensures result == Read(Collected(Parts(header)))
  {
    var parts := Parts(header);
    var fields: map<string, string> := map[];
    for i := 0 to |parts|
      invariant fields == Collected(parts[..i])
    {
      assert parts[..i + 1][..i] == parts[..i];
      var pair := ParsePart(parts[i]);
      if pair.Some? {
        fields := fields[pair.value.0 := pair.value.1];
      }
    }
    assert parts[..|parts|] == parts;
    var created := ParseInt(Get(fields, "created"));
    if created.None? {
      return Err(BadCreated);
    }
    var expires := ParseInt(Get(fields, "expires"));
    if expires.None? {
      return Err(BadExpires);
    }
    if Get(fields, "signature") == "" {
      return Err(NoSignature);
    }
    return Ok(Signed(created.value, expires.value, Get(fields, "signature")));
  }

  datatype KeyError = EmptyHeader | Malformed | NoKeyId

  datatype KeyId = KeyId(subscriber: string, key: string)

  function KeyIdOf(value: string): Result<KeyId, KeyError> {
    var segments := Split(value, '|');
    if |segments| < 2 then Err(Malformed) else Ok(KeyId(segments[0], segments[1]))
  }

  /** The first keyId among the parts. */
  function FirstKeyId(parts: seq<string>): Result<KeyId, KeyError> {
    if parts == [] then Err(NoKeyId)
    else match ParsePart(parts[0])
      case Some((key, value)) => if key == "keyId" then KeyIdOf(value) else FirstKeyId(parts[1..])
      case None => FirstKeyId(parts[1..])
  }

  /** The decryption middleware's reader: a search that stops at the first keyId. */
  method ParseKeyId(header: string) returns (result: Result<KeyId, KeyError>)
    ensures result == if header == "" then Err(EmptyHeader) else FirstKeyId(Parts(header))
  {
    if header == "" {
      return Err(EmptyHeader);
    }
    var parts := Parts(header);
    for i := 0 to |parts|
      invariant FirstKeyId(parts) == FirstKeyId(parts[i..])
    {
      var pair := ParsePart(parts[i]);
      if pair.Some? && pair.value.0 == "keyId" {
        var segments := Split(pair.value.1, '|');
        if |segments| < 2 {
          return Err(Malformed);
        }
        return Ok(KeyId(segments[0], segments[1]));
      }
    }
    return Err(NoKeyId);
  }

  // ---- Rendering, and that both readers undo it ----

  /** One parameter as a sender writes it: leading blanks, and quotes or not. */
  datatype Param = Param(key: string, value: string, quoted: bool, pad: string)

  predicate Writable(p: Param) {
    && (forall c :: c in p.pad ==> IsSpace(c)) && ',' !in p.pad
    && ',' !in p.key && '=' !in p.key && CleanEdges(p.key, IsSpace)
    && ',' !in p.value && CleanEdges(p.value, IsQuote) && (p.quoted || CleanEdges(p.value, IsSpace))
  }

  function Quoted(p: Param): string {
    if p.quoted then "\"" + p.value + "\"" else p.value
  }

  function RenderParam(p: Param): string {
    p.pad + p.key + "=" + Quoted(p)
  }

  function RenderParts(params: seq<Param>): (parts: seq<string>)
    ensures |parts| == |params| && forall i :: 0 <= i < |parts| ==> parts[i] == RenderParam(params[i])
  {
    seq(|params|, i requires 0 <= i < |params| => RenderParam(params[i]))
  }

  function Render(params: seq<Param>): string {
    PREFIX + Join(RenderParts(params), ',')
  }

  lemma {:induction false} CutRendered(key: string, rest: string)
    requires '=' !in key
    ensures CutAtEquals(key + "=" + rest) == Some((key, rest))
  {
    if key == "" {
      assert key + "=" + rest == "=" + rest;
    } else {
      assert (key + "=" + rest)[1..] == key[1..] + "=" + rest;
      CutRendered(key[1..], rest);
      assert key == [key[0]] + key[1..];
    }
  }

  lemma UnquotedRendered(p: Param)
    requires Writable(p)
    ensures Trim(Quoted(p), IsQuote) == p.value
  {
    if p.quoted {
      if p.value == "" {
        assert "\"" + p.value + "\"" == "\"\"";
        TrimLeftPad("\"\"", "", IsQuote);
        assert "\"\"" + "" == "\"\"";
      } else {
        TrimPadded("\"", p.value, "\"", IsQuote);
      }
    }
  }

  lemma PartRoundTrip(p: Param)
    requires Writable(p)
    ensures ParsePart(RenderParam(p)) == Some((p.key, p.value))
  {
    var body := p.key + "=" + Quoted(p);
    assert RenderParam(p) == p.pad + body + "";
    assert body[0] == if p.key == "" then '=' else p.key[0];
    assert body[|body| - 1] == if Quoted(p) == "" then '=' else Quoted(p)[|Quoted(p)| - 1];
    TrimPadded(p.pad, body, "", IsSpace);
    CutRendered(p.key, Quoted(p));
    UnquotedRendered(p);
  }

  lemma PartsRoundTrip(params: seq<Param>)
    requires params != [] && forall p :: p in params ==> Writable(p)
    ensures Parts(Render(params)) == RenderParts(params)
  {
    var parts := RenderParts(params);
    forall i | 0 <= i < |parts| ensures ',' !in parts[i] {
      assert params[i] in params;
    }
    SplitJoin(parts, ',');
    assert Render(params)[|PREFIX|..] == Join(parts, ',');
  }

  /** Key to value over parameters, last one winning. */
  function FieldsOf(params: seq<Param>): map<string, string> {
    if params == [] then map[]
    else FieldsOf(params[..|params| - 1])[params[|params| - 1].key := params[|params| - 1].value]
  }

  lemma {:induction false} CollectedRendered(params: seq<Param>)
    requires forall p :: p in params ==> Writable(p)
    ensures Collected(RenderParts(params)) == FieldsOf(params)
  {
    if params != [] {
      var front := params[..|params| - 1];
      assert params[|params| - 1] in params;
      PartRoundTrip(params[|params| - 1]);
      CollectedRendered(front);
      assert RenderParts(params)[..|params| - 1] == RenderParts(front);
    }
  }

  /** Reading back a rendered header gives the parameters, whatever the quoting and blanks. */
  lemma FieldsRoundTrip(params: seq<Param>)
    requires params != [] && forall p :: p in params ==> Writable(p)
    ensures Collected(Parts(Render(params))) == FieldsOf(params)
  {
    PartsRoundTrip(params);
    CollectedRendered(params);
  }

  predicate DistinctKeys(params: seq<Param>) {
    forall i, j :: 0 <= i < j < |params| ==> params[i].key != params[j].key
  }

  lemma {:induction false} FieldsMember(params: seq<Param>)
    requires DistinctKeys(params)
    ensures forall k :: k in FieldsOf(params) <==> exists p :: p in params && p.key == k
    ensures forall p :: p in params ==> p.key in FieldsOf(params) && FieldsOf(params)[p.key] == p.value
  {
    if params != [] {
      var front, last := params[..|params| - 1], params[|params| - 1];
      FieldsMember(front);
      assert forall p :: p in params <==> p in front || p == last;
    }
  }

  lemma SameFields(params: seq<Param>, reordered: seq<Param>)
    requires DistinctKeys(params) && DistinctKeys(reordered) && forall p :: p in params <==> p in reordered
    ensures FieldsOf(params) == FieldsOf(reordered)
  {
    FieldsMember(params);
    FieldsMember(reordered);
    var a, b := FieldsOf(params), FieldsOf(reordered);
    forall k | k in a ensures k in b && a[k] == b[k] {
      var p :| p in params && p.key == k;
      assert p in reordered;
    }
    forall k | k in b ensures k in a {
      var p :| p in reordered && p.key == k;
      assert p in params;
    }
  }

  /** The order of distinctly named parameters does not matter. */
  lemma OrderIrrelevant(params: seq<Param>, reordered: seq<Param>)
    requires params != [] && forall p :: p in params ==> Writable(p)
    requires DistinctKeys(params) && DistinctKeys(reordered) && forall p :: p in params <==> p in reordered
    ensures Collected(Parts(Render(reordered))) == Collected(Parts(Render(params)))
  {
    assert params[0] in params;
    FieldsRoundTrip(params);
    FieldsRoundTrip(reordered);
    SameFields(params, reordered);
  }

  predicate Carries(params: seq<Param>, key: string, value: string) {
    exists p :: p in params && p.key == key && p.value == value
  }

  /** The validator's reader returns exactly the rendered values, for all 64-bit times, and refuses a
      header without a signature or with an empty one. */
  lemma SignedRoundTrip(params: seq<Param>, created: int, expires: int, signature: string)
    requires (forall p :: p in params ==> Writable(p)) && DistinctKeys(params)
    requires Carries(params, "created", Itoa(created)) && Carries(params, "expires", Itoa(expires))
    requires Carries(params, "signature", signature)
      || (signature == "" && forall p :: p in params ==> p.key != "signature")
    ensures Read(Collected(Parts(Render(params)))) ==
      if !IsInt64(created) then Err(BadCreated)
      else if !IsInt64(expires) then Err(BadExpires)
      else if signature == "" then Err(NoSignature)
      else Ok(Signed(created, expires, signature))
  {
    FieldsRoundTrip(params);
    FieldsMember(params);
    ParsePrinted(created);
    ParsePrinted(expires);
  }

  lemma {:induction false} FirstKeyIdAt(parts: seq<string>, params: seq<Param>, i: nat)
    requires |parts| == |params|
    requires forall j :: 0 <= j < |parts| ==> ParsePart(parts[j]) == Some((params[j].key, params[j].value))
    requires i <= |params| && (i < |params| ==> params[i].key == "keyId")
    requires forall j :: 0 <= j < i ==> params[j].key != "keyId"
    ensures FirstKeyId(parts) == if i < |params| then KeyIdOf(params[i].value) else Err(NoKeyId)
    decreases i
  {
    if i > 0 {
      FirstKeyIdAt(parts[1..], params[1..], i - 1);
    }
  }

  lemma FirstKeyIdRendered(params: seq<Param>, i: nat)
    requires forall p :: p in params ==> Writable(p)
    requires i < |params| && params[i].key == "keyId" && forall j :: 0 <= j < i ==> params[j].key != "keyId"
    ensures FirstKeyId(RenderParts(params)) == KeyIdOf(params[i].value)
  {
    PartsParse(params);
    FirstKeyIdAt(RenderParts(params), params, i);
  }

  lemma PartsParse(params: seq<Param>)
    requires forall p :: p in params ==> Writable(p)
    ensures forall j :: 0 <= j < |params| ==>
      ParsePart(RenderParts(params)[j]) == Some((params[j].key, params[j].value))
  {
    forall j | 0 <= j < |params| ensures ParsePart(RenderParts(params)[j]) == Some((params[j].key, params[j].value)) {
      PartRoundTrip(params[j]);
    }
  }

  lemma KeyIdValue(subscriber: string, key: string, algorithm: string)
    requires '|' !in subscriber && '|' !in key
    ensures KeyIdOf(subscriber + "|" + key + "|" + algorithm) == Ok(KeyId(subscriber, key))
  {
    SplitPlain(subscriber, '|');
    SplitPlain(key, '|');
    assert subscriber + "|" + key + "|" + algorithm == subscriber + ['|'] + (key + ['|'] + algorithm);
    SplitConcat(subscriber, key + ['|'] + algorithm, '|');
    SplitConcat(key, algorithm, '|');
  }

  /** The middleware's reader returns the parts of the first keyId parameter. */
  lemma KeyIdRoundTrip(params: seq<Param>, i: nat, subscriber: string, key: string, algorithm: string)
    requires forall p :: p in params ==> Writable(p)
    requires i < |params| && forall j :: 0 <= j < i ==> params[j].key != "keyId"
    requires params[i].key == "keyId" && params[i].value == subscriber + "|" + key + "|" + algorithm
    requires '|' !in subscriber && '|' !in key
    ensures Render(params) != "" && FirstKeyId(Parts(Render(params))) == Ok(KeyId(subscriber, key))
  {
    PartsRoundTrip(params);
    FirstKeyIdRendered(params, i);
    KeyIdValue(subscriber, key, algorithm);
  }

  // ---- Headers in general ----

  /** The scheme name in front is optional, and nothing else of the header is left out. */
  lemma PrefixOptional(list: string)
    ensures Parts("Signature " + list) == Split(list, ',')
    ensures !("Signature " <= list) ==> Parts(list) == Split(list, ',')
  {
    assert ("Signature " + list)[|PREFIX|..] == list;
  }

  lemma {:induction false} NoCut(s: string)
    requires '=' !in s
    ensures CutAtEquals(s) == None
  {
    if s != "" { NoCut(s[1..]); }
  }

  /** A part without an equals sign is passed over. */
  lemma PlainPartIgnored(part: string)
    requires '=' !in TrimSpace(part)
    ensures ParsePart(part) == None
  {
    NoCut(TrimSpace(part));
  }

  /** The signature validator keeps a repeated key's last value. */
  lemma {:induction false} LastWins(params: seq<Param>, i: nat)
    requires i < |params| && forall j :: i < j < |params| ==> params[j].key != params[i].key
    ensures params[i].key in FieldsOf(params) && FieldsOf(params)[params[i].key] == params[i].value
  {
    if i < |params| - 1 {
      LastWins(params[..|params| - 1], i);
    }
  }

  /** A key that no parameter has is not read. */
  lemma {:induction false} OnlyGivenKeys(params: seq<Param>, key: string)
    requires forall p :: p in params ==> p.key != key
    ensures key !in FieldsOf(params)
  {
    if params != [] { OnlyGivenKeys(params[..|params| - 1], key); }
  }

  /** Which of the three fields refuses a header, and what it reads as otherwise. */
  lemma ReadExactly(fields: map<string, string>)
    ensures var created, expires := ParseInt(Get(fields, "created")), ParseInt(Get(fields, "expires"));
      && (Read(fields) == Err(BadCreated) <==> created == None)
      && (Read(fields) == Err(BadExpires) <==> created != None && expires == None)
      && (Read(fields) == Err(NoSignature) <==>
            created != None && expires != None && ("signature" !in fields || fields["signature"] == ""))
      && forall signed :: Read(fields) == Ok(signed) <==>
            && created == Some(signed.created) && expires == Some(signed.expires) && signed.signature != ""
            && "signature" in fields && fields["signature"] == signed.signature
  {
  }

  /** A keyId needs a bar. */
  lemma KeyIdMalformed(value: string)
    requires '|' !in value
    ensures KeyIdOf(value) == Err(Malformed)
  {
    SplitPlain(value, '|');
  }

  /** Without a keyId there is no sender. */
  lemma NoKeyIdFound(params: seq<Param>)
    requires forall p :: p in params ==> Writable(p) && p.key != "keyId"
    ensures FirstKeyId(RenderParts(params)) == Err(NoKeyId)
  {
    PartsParse(params);
    FirstKeyIdAt(RenderParts(params), params, |params|);
  }
}
