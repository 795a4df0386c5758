/** src/crypto.rs: signatures over a contract, and the final hash that binds all of them.

    SHA-256 and Ed25519 are parameters (`Primitives`); what is proved of them is relative to
    `Sound`, the correctness of sections 5.1.6 and 5.1.7 of RFC 8032 and the digest sizes. */
module Crypto {
  import opened Wrappers
  import opened Hex
  import opened Rfc3339

  datatype Primitives = Primitives(
    sha256: string -> seq<byte>,
    publicKey: seq<byte> -> seq<byte>,
    isPoint: seq<byte> -> bool,
    sign: (seq<byte>, string) -> seq<byte>,
    verify: (seq<byte>, string, seq<byte>) -> bool)

  ghost predicate Sound(p: Primitives) {
    && (forall text :: |p.sha256(text)| == 32)
    && (forall key :: |key| == 32 ==> |p.publicKey(key)| == 32 && p.isPoint(p.publicKey(key)))
    && (forall key, text :: |key| == 32 ==>
          |p.sign(key, text)| == 64 && p.verify(p.publicKey(key), text, p.sign(key, text)))
  }

  /** There are such primitives. */
  lemma SoundIsMet()
    ensures Sound(Primitives(text => seq(32, i => 0), key => key, point => true,
                             (key, text) => seq(64, i => 0), (key, text, signature) => true))
  {
  }

  function HashContent(p: Primitives, content: string): string {
    Encode(p.sha256(content))
  }

  function Message(contractId: string, contentHash: string, timestamp: string): string {
    contractId + ":" + contentHash + ":" + timestamp
  }

  datatype KeyError = InvalidHex | WrongLength

  function SignContract(p: Primitives, privateKeyHex: string, contractId: string, contentHash: string,
                        timestamp: string)
    : Result<string, KeyError>
  {
    match Decode(privateKeyHex)
    case None => Err(InvalidHex)
    case Some(key) =>
      if |key| != 32 then Err(WrongLength)
      else Ok(Encode(p.sign(key, Message(contractId, contentHash, timestamp))))
  }

  function VerifySignature(p: Primitives, publicKeyHex: string, signatureHex: string,
                           contractId: string, contentHash: string, timestamp: string): bool
  {
    match (Decode(publicKeyHex), Decode(signatureHex))
    case (Some(key), Some(signature)) =>
      && |key| == 32 && p.isPoint(key) && |signature| == 64
      && p.verify(key, Message(contractId, contentHash, timestamp), signature)
    case _ => false
  }

  /** What `sign_contract` produces with a generated key, `verify_signature` accepts. */
  lemma SignedVerifies(p: Primitives, key: seq<byte>, contractId: string, contentHash: string, timestamp: string)
    requires Sound(p) && |key| == 32
    ensures var r := SignContract(p, Encode(key), contractId, contentHash, timestamp);
            && r.Ok? && |r.value| == 128
            && VerifySignature(p, Encode(p.publicKey(key)), r.value, contractId, contentHash, timestamp)
  {
    var text := Message(contractId, contentHash, timestamp);
    DecodeEncode(key);
    DecodeEncode(p.publicKey(key));
    DecodeEncode(p.sign(key, text));
  }

  /** Exactly what is accepted: 32 bytes that are a point and 64 bytes, both in hexadecimal, that the
      primitive verifies on the three fields joined by colons. */
  lemma AcceptedExactly(p: Primitives, publicKey: string, signature: string, contractId: string, contentHash: string,
                        timestamp: string)
    ensures VerifySignature(p, publicKey, signature, contractId, contentHash, timestamp) <==>
            exists key, bytes ::
              && Decode(publicKey) == Some(key) && |key| == 32 && p.isPoint(key)
              && Decode(signature) == Some(bytes) && |bytes| == 64
              && p.verify(key, contractId + ":" + contentHash + ":" + timestamp, bytes)
  {
    match (Decode(publicKey), Decode(signature))
    case (Some(key), Some(bytes)) =>
      assert p.verify(key, contractId + ":" + contentHash + ":" + timestamp, bytes) <==>
             p.verify(key, Message(contractId, contentHash, timestamp), bytes);
    case _ =>
  }

  /** Exactly what can be signed with, and what comes of it. */
  lemma SignedExactly(p: Primitives, privateKey: string, contractId: string, contentHash: string, timestamp: string)
    ensures var key := Decode(privateKey);
            SignContract(p, privateKey, contractId, contentHash, timestamp) ==
            if key.None? then Err(InvalidHex)
            else if |key.value| != 32 then Err(WrongLength)
            else Ok(Encode(p.sign(key.value, contractId + ":" + contentHash + ":" + timestamp)))
  {
  }

  lemma {:induction false} ColonSplits(a: string, b: string, a': string, b': string)
    requires ':' !in a && ':' !in a'
    ensures a + ":" + b == a' + ":" + b' <==> a == a' && b == b'
  {
    var s, s' := a + ":" + b, a' + ":" + b';
    assert s[0] == if a == "" then ':' else a[0];
    assert s'[0] == if a' == "" then ':' else a'[0];
    if a != "" && a' != "" {
      ColonSplits(a[1..], b, a'[1..], b');
      assert s == [a[0]] + (a[1..] + ":" + b) && s' == [a'[0]] + (a'[1..] + ":" + b');
      assert a == [a[0]] + a[1..] && a' == [a'[0]] + a'[1..];
      SameHead(a[0], a[1..] + ":" + b, a'[0], a'[1..] + ":" + b');
      SameHead(a[0], a[1..], a'[0], a'[1..]);
    } else if a == "" && a' == "" {
      SameHead(':', b, ':', b');
      assert s == [':'] + b && s' == [':'] + b';
    }
  }

  lemma SameHead(c: char, x: string, d: char, y: string)
    ensures [c] + x == [d] + y <==> c == d && x == y
  {
    assert ([c] + x)[0] == c && ([d] + y)[0] == d;
    assert ([c] + x)[1..] == x && ([d] + y)[1..] == y;
  }

  /** The signed text tells its fields apart, for ids and hashes without colons: a UUID and hexadecimal. */
  lemma MessageBinds(id: string, hash: string, time: string, id': string, hash': string, time': string)
    requires ':' !in id && ':' !in id' && ':' !in hash && ':' !in hash'
    ensures Message(id, hash, time) == Message(id', hash', time') <==> id == id' && hash == hash' && time == time'
  {
    ColonSplits(id, hash + ":" + time, id', hash' + ":" + time');
    ColonSplits(hash, time, hash', time');
    Regroup(id, hash, time);
    Regroup(id', hash', time');
  }

  lemma Regroup(id: string, hash: string, time: string)
    ensures Message(id, hash, time) == id + ":" + (hash + ":" + time)
  {
  }

  /** A signature made for one contract, content and time is accepted for another exactly when the two are
      the same, or the primitive verifies it on the other, different text. */
  lemma AcceptedForItsOwn(p: Primitives, key: seq<byte>, id: string, hash: string, time: string,
                          id': string, hash': string, time': string)
    requires Sound(p) && |key| == 32
    requires ':' !in id && ':' !in id' && ':' !in hash && ':' !in hash'
    ensures var signature := SignContract(p, Encode(key), id, hash, time);
            && signature.Ok?
            && (VerifySignature(p, Encode(p.publicKey(key)), signature.value, id', hash', time') <==>
                  || (id, hash, time) == (id', hash', time')
                  || (id' + ":" + hash' + ":" + time' != id + ":" + hash + ":" + time
                      && p.verify(p.publicKey(key), id' + ":" + hash' + ":" + time',
                                  p.sign(key, id + ":" + hash + ":" + time))))
  {
    SignedVerifies(p, key, id, hash, time);
    DecodeEncode(key);
    DecodeEncode(p.publicKey(key));
    DecodeEncode(p.sign(key, Message(id, hash, time)));
    MessageBinds(id, hash, time, id', hash', time');
  }

  // -------------------------------------------------------------- final hash

  /** What one signature contributes to the final hash. */
  datatype Entry = Entry(signatureHash: string, signedAt: string, contentHash: string)

  /** The text hashed by `generate_final_hash`: no separators and no lengths. */
  function Preimage(content: string, entries: seq<Entry>): string {
    if entries == [] then content
    else
      var e := entries[|entries| - 1];
      Preimage(content, entries[..|entries| - 1]) + e.signatureHash + e.signedAt + e.contentHash
  }

  function FinalHash(p: Primitives, content: string, entries: seq<Entry>): string {
    HashContent(p, Preimage(content, entries))
  }

  function Zip(hashes: seq<string>, times: seq<string>, contents: seq<string>): (entries: seq<Entry>)
    requires |hashes| <= |times| && |hashes| <= |contents|
  {
    seq(|hashes|, i requires 0 <= i < |hashes| => Entry(hashes[i], times[i], contents[i]))
  }

  /** The three parallel vectors are indexed together; shorter second or third ones would panic. */
  method GenerateFinalHash(p: Primitives, content: string, hashes: seq<string>, times: seq<string>,
                           contents: seq<string>)
    returns (hash: string)
    requires |hashes| <= |times| && |hashes| <= |contents|
    ensures hash == FinalHash(p, content, Zip(hashes, times, contents))
  {
    var combined := "";
    combined := combined + content;
    ghost var entries := Zip(hashes, times, contents);
    for i := 0 to |hashes|
      invariant combined == Preimage(content, entries[..i])
    {
      combined := combined + hashes[i];
      combined := combined + times[i];
      combined := combined + contents[i];
      assert entries[..i + 1][..i] == entries[..i];
    }
    assert entries[..|hashes|] == entries;
    hash := HashContent(p, combined);
  }

  /** Sizes of what the server stores: 64 bytes and 32 bytes in hexadecimal, and a UTC time text. */
  predicate WellShaped(e: Entry) {
    |e.signatureHash| == 128 && IsStamp(e.signedAt) && |e.contentHash| == 64
  }

  /** Length of the time text that ends `s`. */
  function StampLength(s: string): (n: nat)
    requires |s| >= 25
    ensures n <= |s|
  {
    if s[|s| - 9] == ':' then 25
    else if |s| < 29 || s[|s| - 10] == '.' then (if |s| < 29 then |s| else 29)
    else if |s| < 32 || s[|s| - 13] == '.' then (if |s| < 32 then |s| else 32)
    else if |s| < 35 then |s| else 35
  }

  lemma StampLengthOfSuffix(prefix: string, stamp: string)
    requires IsStamp(stamp)
    ensures StampLength(prefix + stamp) == |stamp|
  {
    var s := prefix + stamp;
    assert forall k :: 0 <= k < |stamp| ==> stamp[k] == s[|prefix| + k];
  }

  /** Takes one entry off the end of a preimage. */
  function TakeEntry(text: string): Option<(string, Entry)> {
    if |text| < 64 + 25 then None
    else
      var beforeContent := text[..|text| - 64];
      var beforeStamp := beforeContent[..|beforeContent| - StampLength(beforeContent)];
      if |beforeStamp| < 128 then None
      else Some((beforeStamp[..|beforeStamp| - 128],
                 Entry(beforeStamp[|beforeStamp| - 128..],
                       beforeContent[|beforeStamp|..],
                       text[|text| - 64..])))
  }

  /** Splits a preimage of `n` entries into content and entries. */
  function DecodePreimage(text: string, n: nat): Option<(string, seq<Entry>)> {
    if n == 0 then Some((text, []))
    else
      match TakeEntry(text)
      case None => None
      case Some((rest, e)) =>
        match DecodePreimage(rest, n - 1)
        case None => None
        case Some((content, entries)) => Some((content, entries + [e]))
  }

  lemma TakeEntryOfAppended(text: string, e: Entry)
    requires WellShaped(e)
    ensures TakeEntry(text + e.signatureHash + e.signedAt + e.contentHash) == Some((text, e))
  {
    var beforeStamp := text + e.signatureHash;
    var beforeContent := beforeStamp + e.signedAt;
    var whole := beforeContent + e.contentHash;
    assert whole[..|whole| - 64] == beforeContent && whole[|whole| - 64..] == e.contentHash;
    StampLengthOfSuffix(beforeStamp, e.signedAt);
    assert beforeContent[..|beforeStamp|] == beforeStamp && beforeContent[|beforeStamp|..] == e.signedAt;
    assert beforeStamp[..|text|] == text && beforeStamp[|text|..] == e.signatureHash;
  }

  /** For a known number of signatures the hashed text can be read back. */
  lemma {:induction false} PreimageDecodes(content: string, entries: seq<Entry>)
    requires forall e :: e in entries ==> WellShaped(e)
    ensures DecodePreimage(Preimage(content, entries), |entries|) == Some((content, entries))
  {
    if entries != [] {
      var rest, e := entries[..|entries| - 1], entries[|entries| - 1];
      TakeEntryOfAppended(Preimage(content, rest), e);
      PreimageDecodes(content, rest);
      assert rest + [e] == entries;
    }
  }

  /** Equal preimages of equally many signatures come from the same contract text and signatures. */
  lemma PreimageInjective(content: string, entries: seq<Entry>, content': string, entries': seq<Entry>)
    requires forall e :: e in entries + entries' ==> WellShaped(e)
    requires |entries| == |entries'|
    ensures Preimage(content, entries) == Preimage(content', entries') <==> content == content' && entries == entries'
  {
    PreimageDecodes(content, entries);
    PreimageDecodes(content', entries');
  }

  lemma {:induction false} PreimageSplit(content: string, entries: seq<Entry>, d: nat)
    requires d <= |entries|
    ensures Preimage(content, entries) == Preimage(Preimage(content, entries[..d]), entries[d..])
  {
    if d == |entries| {
      assert entries[..d] == entries && entries[d..] == [];
    } else {
      var n := |entries| - 1;
      PreimageSplit(content, entries[..n], d);
      assert entries[..n][..d] == entries[..d] && entries[..n][d..] == entries[d..][..n - d];
    }
  }

  /** With different numbers of signatures the text does not tell them apart: preimages coincide
      exactly when the content with fewer signatures has absorbed the other's first ones. */
  lemma PreimagesCoincide(content: string, entries: seq<Entry>, content': string, entries': seq<Entry>)
    requires forall e :: e in entries + entries' ==> WellShaped(e)
    requires |entries| <= |entries'|
    ensures var d := |entries'| - |entries|;
            Preimage(content, entries) == Preimage(content', entries') <==>
            content == Preimage(content', entries'[..d]) && entries == entries'[d..]
  {
    var d := |entries'| - |entries|;
    PreimageSplit(content', entries', d);
    assert forall e :: e in entries'[d..] ==> e in entries';
    PreimageInjective(content, entries, Preimage(content', entries'[..d]), entries'[d..]);
  }

  /** Such a pair: the text of a signature may as well be the end of the content. */
  lemma CoincidingPair(content: string, e: Entry)
    ensures Preimage(content, [e]) == Preimage(content + e.signatureHash + e.signedAt + e.contentHash, [])
  {
    assert [e][..0] == [];
    assert Preimage(content, [e][..0]) == content;
  }

  /** A final hash that verifies for equally many signatures binds content and signatures,
      unless the two texts collide under SHA-256. */
  lemma FinalHashBinds(p: Primitives, content: string, entries: seq<Entry>, content': string, entries': seq<Entry>)
    requires forall e :: e in entries + entries' ==> WellShaped(e)
    requires |entries| == |entries'|
    requires FinalHash(p, content, entries) == FinalHash(p, content', entries')
    ensures || (content == content' && entries == entries')
            || (Preimage(content, entries) != Preimage(content', entries')
                && p.sha256(Preimage(content, entries)) == p.sha256(Preimage(content', entries')))
  {
    PreimageInjective(content, entries, content', entries');
    DecodeEncode(p.sha256(Preimage(content, entries)));
    DecodeEncode(p.sha256(Preimage(content', entries')));
  }
}
