/** Signing a request body and validating the signature against a time window. */
module Signature {
  import opened AuthHeader
  import opened Base64
  import opened Decimal
  import opened Text
  import opened Wrappers

  /** BLAKE2b-512 and Ed25519; a private key is its 32-byte seed. */
  datatype Crypto = Crypto(
    blake512: seq<Byte> -> seq<Byte>,
    publicKey: seq<Byte> -> seq<Byte>,
    sign: (seq<Byte>, string) -> seq<Byte>,
    verify: (seq<Byte>, string, seq<Byte>) -> bool)

  const SEED_SIZE := 32
  const PUBLIC_KEY_SIZE := 32

  /** What Ed25519 promises: signatures are not empty and verify under the seed's own public key. */
  ghost predicate Correct(c: Crypto) {
    forall seed: seq<Byte>, text: string ::
      && |c.publicKey(seed)| == PUBLIC_KEY_SIZE
      && c.sign(seed, text) != []
      && c.verify(c.publicKey(seed), text, c.sign(seed, text))
  }

  const CREATED := "(created): "
  const EXPIRES := "(expires): "
  const DIGEST := "digest: BLAKE-512="

  function SigningText(created: int, expires: int, digest: string): string {
    CREATED + Itoa(created) + "\n" + (EXPIRES + Itoa(expires) + "\n" + (DIGEST + digest))
  }

  /** The string both the signer and the validator compute for a body. */
  function SigningString(c: Crypto, body: seq<Byte>, created: int, expires: int): string {
    SigningText(created, expires, Encode(c.blake512(body)))
  }

  /** SignPanicked stands for reslicing the decoded key beyond its capacity. */
  datatype SignError = BadKey | SignPanicked

  /** Go's decoder returns the front of a zeroed buffer with three bytes for four characters of text;
      reslicing reaches to the end of that buffer. */
  function Capacity(text: string): nat {
    |text| / 4 * 3
  }

  /** The first bytes of a key, with zeros after it when it is shorter. */
  function SeedOf(key: seq<Byte>): (seed: seq<Byte>)
    ensures |seed| == SEED_SIZE
  {
    (key + seq(SEED_SIZE, _ => 0))[..SEED_SIZE]
  }

  /** Signs a body. */
  function Sign(c: Crypto, body: seq<Byte>, privateKey: string, created: int, expires: int): Result<string, SignError> {
    match Decode(privateKey)
    case None => Err(BadKey)
    case Some(key) =>
      if Capacity(privateKey) < SEED_SIZE then Err(SignPanicked)
      else Ok(Encode(c.sign(SeedOf(key), SigningString(c, body, created, expires))))
  }

  datatype Verdict = Valid | BadHeader(error: HeaderError) | BadSignature | OutsideWindow | BadPublicKey | Mismatch

  /** The bytes of the text a sender signs when it forgets to stringify the body. */
  const OBJECT_LITERAL: seq<Byte> :=
    [0x5b, 0x6f, 0x62, 0x6a, 0x65, 0x63, 0x74, 0x20, 0x4f, 0x62, 0x6a, 0x65, 0x63, 0x74, 0x5d]

  function Validate(c: Crypto, body: seq<Byte>, header: string, publicKey: string, now: int): Verdict {
    match Read(Collected(Parts(header)))
    case Err(error) => BadHeader(error)
    case Ok(signed) =>
      match Decode(signed.signature)
      case None => BadSignature
      case Some(signature) =>
        if signed.created > now || now > signed.expires then OutsideWindow
        else match Decode(publicKey)
          case None => BadPublicKey
          case Some(key) =>
            var text := SigningString(c, body, signed.created, signed.expires);
            var literal := SigningString(c, OBJECT_LITERAL, signed.created, signed.expires);
            if |key| != PUBLIC_KEY_SIZE then BadPublicKey
            else if c.verify(key, text, signature) then Valid
            else if c.verify(key, literal, signature) then Valid
            else Mismatch
  }

  /** What a header says when it reads and its signature decodes. */
  predicate Says(header: string, signed: Signed, signature: seq<Byte>) {
    Read(Collected(Parts(header))) == Ok(signed) && Decode(signed.signature) == Some(signature)
  }

  predicate InWindow(signed: Signed, now: int) {
    signed.created <= now && now <= signed.expires
  }

  /** The signature verifies for the body, or for the literal that stands in for it. */
  predicate Fits(c: Crypto, key: seq<Byte>, body: seq<Byte>, signed: Signed, signature: seq<Byte>) {
    || c.verify(key, SigningString(c, body, signed.created, signed.expires), signature)
    || c.verify(key, SigningString(c, OBJECT_LITERAL, signed.created, signed.expires), signature)
  }

  /** Acceptance, exactly, for every header, key, body and time. */
  lemma ValidExactly(c: Crypto, body: seq<Byte>, header: string, publicKey: string, now: int)
    ensures Validate(c, body, header, publicKey, now) == Valid <==>
      exists signed, signature, key ::
        Says(header, signed, signature) && InWindow(signed, now) && Decode(publicKey) == Some(key) && |key| == 32
        && Fits(c, key, body, signed, signature)
  {
    if Validate(c, body, header, publicKey, now) == Valid {
      var signed := Read(Collected(Parts(header))).value;
      assert Says(header, signed, Decode(signed.signature).value);
      assert Fits(c, Decode(publicKey).value, body, signed, Decode(signed.signature).value);
    }
  }

  /** The first two refusals: a header that does not read, and a signature that does not decode. */
  lemma Unsaid(c: Crypto, body: seq<Byte>, header: string, publicKey: string, now: int)
    ensures var verdict, read := Validate(c, body, header, publicKey, now), Read(Collected(Parts(header)));
      && (read.Err? ==> verdict == BadHeader(read.error))
      && (read.Ok? && Decode(read.value.signature) == None ==> verdict == BadSignature)
  {
  }

  /** And what becomes of a header that says something: refused outside its window, for a key that does
      not decode to 32 bytes, and for a signature that fits neither the body nor the literal. */
  lemma SaidVerdict(c: Crypto, body: seq<Byte>, header: string, publicKey: string, now: int,
                    signed: Signed, signature: seq<Byte>)
    requires Says(header, signed, signature)
    ensures Validate(c, body, header, publicKey, now) ==
      if !InWindow(signed, now) then OutsideWindow
      else if Decode(publicKey) == None || |Decode(publicKey).value| != 32 then BadPublicKey
      else if Fits(c, Decode(publicKey).value, body, signed, signature) then Valid
      else Mismatch
  {
  }

  /** The literal, letter by letter. */
  lemma LiteralText(i: nat)
    requires i < 15
    ensures |OBJECT_LITERAL| == 15 && OBJECT_LITERAL[i] == "[object Object]"[i] as int
  {
  }

  // ---- The signing string is unambiguous ----

  lemma ThreeLines(first: string, second: string, third: string)
    requires '\n' !in first && '\n' !in second && '\n' !in third
    ensures Split(first + "\n" + (second + "\n" + third), '\n') == [first, second, third]
  {
    SplitPlain(first, '\n');
    SplitPlain(second, '\n');
    SplitPlain(third, '\n');
    SplitConcat(second, third, '\n');
    SplitConcat(first, second + "\n" + third, '\n');
  }

  /** The signing string has three lines: the times in decimal, and the digest. */
  lemma SigningTextLines(created: int, expires: int, digest: string)
    requires '\n' !in digest
    ensures Split(SigningText(created, expires, digest), '\n')
         == ["(created): " + Itoa(created), "(expires): " + Itoa(expires), "digest: BLAKE-512=" + digest]
  {
    PrintedChars(created);
    PrintedChars(expires);
    ThreeLines(CREATED + Itoa(created), EXPIRES + Itoa(expires), DIGEST + digest);
  }

  function FirstBreak(s: string): nat {
    if s == "" || s[0] == '\n' then 0 else 1 + FirstBreak(s[1..])
  }

  lemma {:induction false} BreakAfter(line: string, rest: string)
    requires '\n' !in line
    ensures FirstBreak(line + "\n" + rest) == |line|
  {
    if line == "" {
      assert line + "\n" + rest == "\n" + rest;
    } else {
      assert (line + "\n" + rest)[1..] == line[1..] + "\n" + rest;
      BreakAfter(line[1..], rest);
    }
  }

  /** Equal texts have equal first lines after the same prefix, and equal rests. */
  lemma LineSplits(prefix: string, a: string, b: string, x: string, y: string)
    requires '\n' !in prefix && '\n' !in a && '\n' !in b
    requires prefix + a + "\n" + x == prefix + b + "\n" + y
    ensures a == b && x == y
  {
    var s, n := prefix + a + "\n" + x, |prefix + a|;
    BreakAfter(prefix + a, x);
    BreakAfter(prefix + b, y);
    assert s[|prefix|..n] == a && s[n + 1..] == x;
    assert (prefix + b + "\n" + y)[|prefix|..n] == b && (prefix + b + "\n" + y)[n + 1..] == y;
  }

  lemma SigningLines(created: int, expires: int, digest: string, created': int, expires': int, digest': string)
    requires SigningText(created, expires, digest) == SigningText(created', expires', digest')
    ensures Itoa(created) == Itoa(created') && Itoa(expires) == Itoa(expires') && digest == digest'
  {
    PrintedChars(created);
    PrintedChars(expires);
    PrintedChars(created');
    PrintedChars(expires');
    LineSplits(CREATED, Itoa(created), Itoa(created'), EXPIRES + Itoa(expires) + "\n" + (DIGEST + digest),
               EXPIRES + Itoa(expires') + "\n" + (DIGEST + digest'));
    LineSplits(EXPIRES, Itoa(expires), Itoa(expires'), DIGEST + digest, DIGEST + digest');
    assert (DIGEST + digest)[|DIGEST|..] == digest && (DIGEST + digest')[|DIGEST|..] == digest';
  }

  /** Two signing strings are equal exactly for equal times and equal digests. */
  lemma SigningTextInjective(created: int, expires: int, digest: string, created': int, expires': int, digest': string)
    ensures SigningText(created, expires, digest) == SigningText(created', expires', digest') <==>
      created == created' && expires == expires' && digest == digest'
  {
    if SigningText(created, expires, digest) == SigningText(created', expires', digest') {
      SigningLines(created, expires, digest, created', expires', digest');
      PrintInjective(created, created');
      PrintInjective(expires, expires');
    }
  }

  /** So the signing strings of two bodies are equal exactly for equal times and hashes. */
  lemma SigningStringBinds(c: Crypto, body: seq<Byte>, created: int, expires: int,
                           body': seq<Byte>, created': int, expires': int)
    ensures SigningString(c, body, created, expires) == SigningString(c, body', created', expires') <==>
      created == created' && expires == expires' && c.blake512(body) == c.blake512(body')
  {
    var digest, digest' := Encode(c.blake512(body)), Encode(c.blake512(body'));
    SigningTextInjective(created, expires, digest, created', expires', digest');
    if digest == digest' { EncodeInjective(c.blake512(body), c.blake512(body')); }
  }

  // ---- What a signed header does ----

  /** The text of an encoded signature can stand in a header, quoted or not. */
  lemma EncodedIsWritable(b: seq<Byte>)
    ensures ',' !in Encode(b) && CleanEdges(Encode(b), IsQuote) && CleanEdges(Encode(b), IsSpace)
  {
  }

  /** The text is a key that signs, with this seed. */
  predicate Seeds(privateKey: string, seed: seq<Byte>) {
    Decode(privateKey).Some? && Capacity(privateKey) >= SEED_SIZE && seed == SeedOf(Decode(privateKey).value)
  }

  lemma SignsWith(c: Crypto, body: seq<Byte>, privateKey: string, seed: seq<Byte>, created: int, expires: int)
    requires Seeds(privateKey, seed)
    ensures Sign(c, body, privateKey, created, expires)
         == Ok(Encode(c.sign(seed, SigningString(c, body, created, expires))))
  {
  }

  /** Signing panics exactly when the key's text decodes but is too short to have room for a seed. */
  lemma SignPanicsExactly(c: Crypto, body: seq<Byte>, privateKey: string, created: int, expires: int)
    ensures Sign(c, body, privateKey, created, expires) == Err(SignPanicked) <==>
      Decode(privateKey).Some? && |privateKey| / 4 * 3 < SEED_SIZE
    ensures Sign(c, body, privateKey, created, expires) == Err(BadKey) <==> Decode(privateKey) == None
    ensures Sign(c, body, privateKey, created, expires).Ok? <==> exists seed :: Seeds(privateKey, seed)
  {
    if Decode(privateKey).Some? && Capacity(privateKey) >= SEED_SIZE {
      assert Seeds(privateKey, SeedOf(Decode(privateKey).value));
    }
  }

  /** For a key encoded without line breaks: it panics below 31 bytes, and 31 sign as if a zero followed. */
  lemma EncodedKeySigns(c: Crypto, body: seq<Byte>, key: seq<Byte>, created: int, expires: int)
    ensures Sign(c, body, Encode(key), created, expires) == Err(SignPanicked) <==> |key| < SEED_SIZE - 1
    ensures |key| == SEED_SIZE - 1 ==> Seeds(Encode(key), key + [0])
    ensures |key| >= SEED_SIZE ==> Seeds(Encode(key), key[..SEED_SIZE])
  {
    RoundTrip(key);
    EncodedLength(key);
    KeyTextSeeds(key, Encode(key));
    SignPanicsExactly(c, body, Encode(key), created, expires);
  }

  lemma KeyTextSeeds(key: seq<Byte>, text: string)
    requires Decode(text) == Some(key) && |text| == (|key| + 2) / 3 * 4
    ensures Capacity(text) < SEED_SIZE <==> |key| < SEED_SIZE - 1
    ensures |key| == SEED_SIZE - 1 ==> Seeds(text, key + [0])
    ensures |key| >= SEED_SIZE ==> Seeds(text, key[..SEED_SIZE])
  {
    SeedOfKey(key);
  }

  lemma SeedOfKey(key: seq<Byte>)
    ensures |key| == SEED_SIZE - 1 ==> SeedOf(key) == key + [0]
    ensures |key| >= SEED_SIZE ==> SeedOf(key) == key[..SEED_SIZE]
    ensures |key| < SEED_SIZE ==> SeedOf(key) == key + seq(SEED_SIZE - |key|, _ => 0)
  {
  }

  /** No key of at least a seed's length panics, however its text is broken into lines. */
  lemma LongKeySigns(privateKey: string)
    requires Decode(privateKey).Some? && |Decode(privateKey).value| >= SEED_SIZE
    ensures Seeds(privateKey, Decode(privateKey).value[..SEED_SIZE])
  {
    DecodedFits(privateKey);
    SeedOfKey(Decode(privateKey).value);
  }

  /** The empty key panics. */
  lemma EmptyKeyPanics(c: Crypto, body: seq<Byte>, created: int, expires: int)
    ensures Sign(c, body, "", created, expires) == Err(SignPanicked)
  {
    assert Encode([]) == "";
    EncodedKeySigns(c, body, [], created, expires);
  }

  /** Sign's output for a body, and that the validator reads it back out of any header carrying it. */
  lemma SignedReads(c: Crypto, body: seq<Byte>, privateKey: string, seed: seq<Byte>, params: seq<Param>,
                    created: int, expires: int, text: string)
    returns (signature: seq<Byte>)
    requires Correct(c) && Seeds(privateKey, seed) && IsInt64(created) && IsInt64(expires)
    requires (forall p :: p in params ==> Writable(p)) && DistinctKeys(params)
    requires Carries(params, "created", Itoa(created)) && Carries(params, "expires", Itoa(expires))
    requires Sign(c, body, privateKey, created, expires) == Ok(text) && Carries(params, "signature", text)
    ensures signature == c.sign(seed, SigningString(c, body, created, expires))
    ensures text == Encode(signature) && Decode(text) == Some(signature)
    ensures Read(Collected(Parts(Render(params)))) == Ok(Signed(created, expires, text))
  {
    SignsWith(c, body, privateKey, seed, created, expires);
    signature := c.sign(seed, SigningString(c, body, created, expires));
    SignatureVerifies(c, seed, SigningString(c, body, created, expires));
    EncodedText(signature);
    RoundTrip(signature);
    SignedRoundTrip(params, created, expires, text);
  }

  lemma SignatureVerifies(c: Crypto, seed: seq<Byte>, text: string)
    requires Correct(c)
    ensures |c.publicKey(seed)| == PUBLIC_KEY_SIZE && c.sign(seed, text) != []
    ensures c.verify(c.publicKey(seed), text, c.sign(seed, text))
  {
  }

  lemma ValidateRead(c: Crypto, body: seq<Byte>, header: string, publicKey: string, now: int,
                     signed: Signed, signature: seq<Byte>, key: seq<Byte>)
    requires Read(Collected(Parts(header))) == Ok(signed) && Decode(signed.signature) == Some(signature)
    requires Decode(publicKey) == Some(key) && |key| == PUBLIC_KEY_SIZE
    ensures Validate(c, body, header, publicKey, now) ==
      if !(signed.created <= now <= signed.expires) then OutsideWindow
      else if c.verify(key, SigningString(c, body, signed.created, signed.expires), signature)
              || c.verify(key, SigningString(c, OBJECT_LITERAL, signed.created, signed.expires), signature) then Valid
      else Mismatch
  {
  }

  /** A header that carries Sign's output for a body is accepted for that body at every time in the
      window and at no other time, whatever else the header holds and in whatever order. */
  lemma SignedHeaderExactly(c: Crypto, body: seq<Byte>, privateKey: string, seed: seq<Byte>, params: seq<Param>,
                            created: int, expires: int, text: string, now: int)
    requires Correct(c) && Seeds(privateKey, seed) && IsInt64(created) && IsInt64(expires)
    requires (forall p :: p in params ==> Writable(p)) && DistinctKeys(params)
    requires Carries(params, "created", Itoa(created)) && Carries(params, "expires", Itoa(expires))
    requires Sign(c, body, privateKey, created, expires) == Ok(text) && Carries(params, "signature", text)
    ensures Validate(c, body, Render(params), Encode(c.publicKey(seed)), now) ==
      if created <= now <= expires then Valid else OutsideWindow
  {
    var signature := SignedReads(c, body, privateKey, seed, params, created, expires, text);
    RoundTrip(c.publicKey(seed));
    SignatureVerifies(c, seed, SigningString(c, body, created, expires));
    ValidateRead(c, body, Render(params), Encode(c.publicKey(seed)), now,
                 Signed(created, expires, text), signature, c.publicKey(seed));
  }

  /** The ideal of a signature scheme: a signature verifies for no text but the one signed. */
  ghost predicate Binding(c: Crypto) {
    forall seed: seq<Byte>, text: string, text': string ::
      c.verify(c.publicKey(seed), text', c.sign(seed, text)) ==> text' == text
  }

  lemma VerifiesFor(c: Crypto, body: seq<Byte>, body': seq<Byte>, seed: seq<Byte>, created: int, expires: int)
    requires Correct(c) && Binding(c)
    ensures c.verify(c.publicKey(seed), SigningString(c, body', created, expires),
                     c.sign(seed, SigningString(c, body, created, expires)))
      <==> c.blake512(body') == c.blake512(body)
  {
    SigningStringBinds(c, body, created, expires, body', created, expires);
    SignatureVerifies(c, seed, SigningString(c, body, created, expires));
  }

  /** Inside its window, a header signed for one body is accepted for another exactly when their
      hashes agree, or when the body it was signed for hashes like the fallback's literal. */
  lemma SignatureBindsBody(c: Crypto, body: seq<Byte>, body': seq<Byte>, privateKey: string, seed: seq<Byte>,
                           params: seq<Param>, created: int, expires: int, text: string, now: int)
    requires Correct(c) && Binding(c) && Seeds(privateKey, seed) && IsInt64(created) && IsInt64(expires)
    requires (forall p :: p in params ==> Writable(p)) && DistinctKeys(params)
    requires Carries(params, "created", Itoa(created)) && Carries(params, "expires", Itoa(expires))
    requires Sign(c, body, privateKey, created, expires) == Ok(text) && Carries(params, "signature", text)
    ensures Validate(c, body', Render(params), Encode(c.publicKey(seed)), now) ==
      if !(created <= now <= expires) then OutsideWindow
      else if c.blake512(body') == c.blake512(body) || c.blake512(OBJECT_LITERAL) == c.blake512(body) then Valid
      else Mismatch
  {
    var signature := SignedReads(c, body, privateKey, seed, params, created, expires, text);
    RoundTrip(c.publicKey(seed));
    SignatureVerifies(c, seed, SigningString(c, body, created, expires));
    ValidateRead(c, body', Render(params), Encode(c.publicKey(seed)), now,
                 Signed(created, expires, text), signature, c.publicKey(seed));
    VerifiesFor(c, body, body', seed, created, expires);
    VerifiesFor(c, body, OBJECT_LITERAL, seed, created, expires);
  }

  /** A header signed over the literal passes for every body, as the fallback intends. */
  lemma LiteralHeaderFitsAnyBody(c: Crypto, body: seq<Byte>, header: string, publicKey: string, now: int)
    requires Validate(c, OBJECT_LITERAL, header, publicKey, now) == Valid
    ensures Validate(c, body, header, publicKey, now) == Valid
  {
  }
}
