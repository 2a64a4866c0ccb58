/**
 * Validation of a NIP-98 (Nostr HTTP Auth) `Authorization` header of the form
 * `Nostr <base64 of a signed kind-27235 note>`. The answer names the
 * authorised pubkey or carries an error message, never both.
 *
 * Decoding (base64, UTF-8, JSON), SHA-256, event-id calculation, signature
 * checking and the clock are outside the model: they arrive as `Primitives`.
 */
module Nip98Auth {
  import opened Wrappers
  import opened Nostr

  /** What base64-decoding and `JSON.parse` make of the header's second part. */
  datatype Decoded =
    | ParseError(message: string)  // `JSON.parse` threw with this message
    | Falsy                        // parsed to `null`, `false`, `0` or `""`
    | Parsed(note: Event)

  datatype Primitives = Primitives(
    decodeNote: string -> Decoded,
    hashSha256: seq<bv8> -> string,
    calculateId: Event -> string,
    verifyEvent: Event -> bool,
    now: int)  // seconds since the epoch, rounded down

  datatype AuthResult = AuthResult(authorizedPubkey: Option<Pubkey>, error: Option<string>)

  function Deny(message: string): AuthResult {
    AuthResult(None, Some(message))
  }

  const AuthKind := 27235
  const MaxAgeSeconds := 60

  const HeaderMissing := "Nostr authorization header missing"
  const NotTwoParts := "Nostr authorization header does not have 2 parts"
  const NotNostrScheme := "Nostr authorization header does not start with `Nostr`"
  const NoEncodedNote := "Nostr authorization header does not have a base64 encoded note"
  const NoteNotParsed := "Could not parse base64 encoded JSON note"
  const WrongKind := "Auth note kind is not 27235"
  const OutOfWindow := "Auth note is too old or too new"
  const PayloadMismatch := "Auth note payload hash does not match request body hash"
  const PayloadWithoutBody := "Auth note has payload tag but request has no body"
  const IdMismatch := "Auth note id does not match note contents"
  const BadSignature := "Auth note signature is invalid"
  const CaughtPrefix := "Error when checking auth header: "
  /** The `TypeError` message of indexing `[1]` on what `find` returned when no tag matched. */
  const UndefinedIndex := "Cannot read properties of undefined (reading '1')"

  function UrlOrMethodMismatch(noteUrl: string, url: string, noteMethod: string, httpMethod: string): string {
    "Auth note url and/or method does not match request. Auth note url: " + noteUrl + "; Request url: " + url
    + "; Auth note method: " + noteMethod + "; Request method: " + httpMethod
  }

  // ---------------------------------------------------------------------------
  // `String.prototype.split` with a one-character separator, and its inverse.
  // ---------------------------------------------------------------------------

  /** The pieces between separators, empty pieces included; there is always at least one. */
  function Split(s: string, sep: char): (r: seq<string>)
    ensures |r| >= 1
    decreases |s|
  {
    if s == [] then [""]
    else
      var rest := Split(s[1..], sep);
      if s[0] == sep then [""] + rest else [[s[0]] + rest[0]] + rest[1..]
  }

  /** `parts.join(sep)`. */
  function Join(parts: seq<string>, sep: char): string {
    if parts == [] then ""
    else if |parts| == 1 then parts[0]
    else parts[0] + [sep] + Join(parts[1..], sep)
  }

  /** Joining the pieces gives the string back, and no piece holds a separator. */
  lemma {:induction false} SplitJoin(s: string, sep: char)
    ensures Join(Split(s, sep), sep) == s
    ensures forall i :: 0 <= i < |Split(s, sep)| ==> sep !in Split(s, sep)[i]
  {
    if s != [] {
      var rest := Split(s[1..], sep);
      SplitJoin(s[1..], sep);
      if s[0] == sep {
        assert Join([""] + rest, sep) == [sep] + Join(rest, sep) by {
          assert ([""] + rest)[1..] == rest;
        }
        assert s == [s[0]] + s[1..];
      } else {
        var parts := [[s[0]] + rest[0]] + rest[1..];
        assert parts[1..] == rest[1..];
        if |rest| > 1 {
          assert Join(rest, sep) == rest[0] + [sep] + Join(rest[1..], sep);
        }
        assert s == [s[0]] + s[1..];
        forall i | 0 <= i < |parts|
          ensures sep !in parts[i]
        {
          if i > 0 {
            assert parts[i] == rest[i];
          }
        }
      }
    }
  }

  /** A string without a separator is a single piece. */
  lemma {:induction false} SplitNoSeparator(s: string, sep: char)
    requires sep !in s
    ensures Split(s, sep) == [s]
  {
    if s != [] {
      SplitNoSeparator(s[1..], sep);
      assert [s[0]] + s[1..] == s;
    }
  }

  /** Cutting at the first separator. */
  lemma {:induction false} SplitAtSeparator(a: string, sep: char, b: string)
    requires sep !in a
    ensures Split(a + [sep] + b, sep) == [a] + Split(b, sep)
  {
    var s := a + [sep] + b;
    if a == [] {
      assert s[1..] == b;
    } else {
      assert s[1..] == a[1..] + [sep] + b;
      SplitAtSeparator(a[1..], sep, b);
      assert [a[0]] + a[1..] == a;
    }
  }

  /** Splitting gives exactly two pieces `a`, `b` iff the string is `a`, a separator, `b`, with no other separator. */
  lemma SplitTwoParts(s: string, sep: char, a: string, b: string)
    ensures Split(s, sep) == [a, b] <==> s == a + [sep] + b && sep !in a && sep !in b
  {
    if Split(s, sep) == [a, b] {
      SplitJoin(s, sep);
      assert Join([a, b], sep) == a + [sep] + Join([b], sep);
    }
    if s == a + [sep] + b && sep !in a && sep !in b {
      SplitAtSeparator(a, sep, b);
      SplitNoSeparator(b, sep);
    }
  }

  // ---------------------------------------------------------------------------
  // Tags of the auth note.
  // ---------------------------------------------------------------------------

  /** `tags.find(tag => tag[0] == name)`: the first tag of that type, if any. */
  function FindTag(tags: seq<Tag>, name: string): (r: Option<Tag>)
    ensures r.Some? ==> r.value in tags && r.value[0] == name
  {
    if tags == [] then None
    else if tags[0][0] == name then Some(tags[0])
    else FindTag(tags[1..], name)
  }

  /** `FindTag` finds nothing iff there is no tag of that type, and otherwise the first one. */
  lemma {:induction false} FindTagFirst(tags: seq<Tag>, name: string)
    ensures FindTag(tags, name).None? <==> forall i :: 0 <= i < |tags| ==> tags[i][0] != name
    ensures FindTag(tags, name).Some? ==>
              exists i :: 0 <= i < |tags| && tags[i] == FindTag(tags, name).value
                          && forall j :: 0 <= j < i ==> tags[j][0] != name
  {
    if tags != [] && tags[0][0] != name {
      var rest := tags[1..];
      FindTagFirst(rest, name);
      if FindTag(rest, name).Some? {
        var i :| 0 <= i < |rest| && rest[i] == FindTag(rest, name).value
                 && forall j :: 0 <= j < i ==> rest[j][0] != name;
        assert tags[i + 1] == rest[i];
        forall j | 0 <= j < i + 1
          ensures tags[j][0] != name
        {
          if j > 0 {
            assert tags[j] == rest[j - 1];
          }
        }
      } else {
        forall i | 0 <= i < |tags|
          ensures tags[i][0] != name
        {
          if i > 0 {
            assert tags[i] == rest[i - 1];
          }
        }
      }
    } else if tags != [] {
      assert tags[0] == FindTag(tags, name).value;
    }
  }

  /** The value of the first tag of that type, if any. */
  function FirstValue(tags: seq<Tag>, name: string): Option<string> {
    var t := FindTag(tags, name);
    if t.Some? then Some(t.value[1]) else None
  }

  // ---------------------------------------------------------------------------
  // The rule, stated once as a predicate and once as the guard chain.
  // ---------------------------------------------------------------------------

  /**
   * A decoded note authorises the request when it is an HTTP-auth note
   * (kind 27235) for this url and method, created at most 60 seconds before
   * `now` and not after it, committing to the body's SHA-256 when there is a
   * body and carrying no `payload` tag when there is none, with an id that
   * matches its contents and a valid signature.
   */
  predicate NoteAccepted(p: Primitives, note: Event, url: string, httpMethod: string, body: Option<seq<bv8>>) {
    && NoteMatchesRequest(p, note, url, httpMethod)
    && PayloadMatches(p, note, body)
    && note.id == p.calculateId(note)
    && p.verifyEvent(note)
  }

  /** The guards up to the time window: kind, `u` and `method` tags, and age. */
  predicate NoteMatchesRequest(p: Primitives, note: Event, url: string, httpMethod: string) {
    && note.kind == AuthKind
    && FirstValue(note.tags, "u") == Some(url)
    && FirstValue(note.tags, "method") == Some(httpMethod)
    && note.createdAt <= p.now <= note.createdAt + MaxAgeSeconds
  }

  /** The body guard: the first `payload` tag holds the body's hash, or there is no body and no `payload` tag. */
  predicate PayloadMatches(p: Primitives, note: Event, body: Option<seq<bv8>>) {
    match body
    case Some(bytes) => FirstValue(note.tags, "payload") == Some(p.hashSha256(bytes))
    case None => forall i :: 0 <= i < |note.tags| ==> note.tags[i][0] != "payload"
  }

  /** `Nostr `, then a non-empty encoded note with no further space. */
  predicate WellShaped(h: string) {
    |h| > 6 && h[..6] == "Nostr " && ' ' !in h[6..]
  }

  /** The header is `Nostr `, then a non-empty encoded note without spaces, which decodes to a note that authorises the request. */
  predicate Accepts(p: Primitives, authHeader: Option<string>, url: string, httpMethod: string, body: Option<seq<bv8>>) {
    && authHeader.Some?
    && var h := authHeader.value;
    && WellShaped(h)
    && p.decodeNote(h[6..]).Parsed?
    && NoteAccepted(p, p.decodeNote(h[6..]).note, url, httpMethod, body)
  }

  /** Checks on the decoded note, in source order (from the kind check on). */
  function CheckNote(p: Primitives, note: Event, url: string, httpMethod: string, body: Option<seq<bv8>>): (r: AuthResult)
    ensures r.authorizedPubkey.Some? != r.error.Some?
    ensures r.authorizedPubkey.Some? <==> NoteAccepted(p, note, url, httpMethod, body)
    ensures r.authorizedPubkey.Some? ==> r.authorizedPubkey.value == note.pubkey
    ensures note.kind != AuthKind ==> r.error == Some(WrongKind)
    ensures note.kind == AuthKind && (FindTag(note.tags, "u").None? || FindTag(note.tags, "method").None?) ==>
              r.error == Some(CaughtPrefix + UndefinedIndex)
    ensures note.kind == AuthKind && FirstValue(note.tags, "u").Some? && FirstValue(note.tags, "method").Some?
            && (FirstValue(note.tags, "u").value != url || FirstValue(note.tags, "method").value != httpMethod) ==>
              r.error == Some(UrlOrMethodMismatch(FirstValue(note.tags, "u").value, url,
                                                  FirstValue(note.tags, "method").value, httpMethod))
    ensures note.kind == AuthKind && FirstValue(note.tags, "u") == Some(url) && FirstValue(note.tags, "method") == Some(httpMethod)
            && !(note.createdAt <= p.now <= note.createdAt + MaxAgeSeconds) ==>
              r.error == Some(OutOfWindow)
    ensures NoteMatchesRequest(p, note, url, httpMethod) && !PayloadMatches(p, note, body) ==>
              r.error == CheckPayload(p, note, body)
    ensures NoteMatchesRequest(p, note, url, httpMethod) && PayloadMatches(p, note, body) ==>
              r == CheckSignedNote(p, note)
  {
    if note.kind != AuthKind then Deny(WrongKind)
    else
      var authorizedUrl := FindTag(note.tags, "u");
      if authorizedUrl.None? then Deny(CaughtPrefix + UndefinedIndex)
      else
        var authorizedMethod := FindTag(note.tags, "method");
        if authorizedMethod.None? then Deny(CaughtPrefix + UndefinedIndex)
        else if authorizedUrl.value[1] != url || authorizedMethod.value[1] != httpMethod then
          Deny(UrlOrMethodMismatch(authorizedUrl.value[1], url, authorizedMethod.value[1], httpMethod))
        else if p.now - note.createdAt > MaxAgeSeconds || p.now - note.createdAt < 0 then Deny(OutOfWindow)
        else
          var payloadError := CheckPayload(p, note, body);
          if payloadError.Some? then Deny(payloadError.value) else CheckSignedNote(p, note)
  }

  /**
   * The body check: with a body, the first `payload` tag must hold its SHA-256
   * (no such tag throws); without one, there must be no `payload` tag.
   */
  function CheckPayload(p: Primitives, note: Event, body: Option<seq<bv8>>): (r: Option<string>)
    ensures r.None? <==> PayloadMatches(p, note, body)
    ensures body.Some? && FindTag(note.tags, "payload").None? ==> r == Some(CaughtPrefix + UndefinedIndex)
    ensures body.Some? && FirstValue(note.tags, "payload").Some? && FirstValue(note.tags, "payload").value != p.hashSha256(body.value) ==>
              r == Some(PayloadMismatch)
    ensures body.None? && r.Some? ==> r == Some(PayloadWithoutBody)
  {
    FindTagFirst(note.tags, "payload");
    if body.Some? then
      var authorizedContentHash := FindTag(note.tags, "payload");
      if authorizedContentHash.None? then Some(CaughtPrefix + UndefinedIndex)
      else if authorizedContentHash.value[1] != p.hashSha256(body.value) then Some(PayloadMismatch)
      else None
    else if FindTag(note.tags, "payload").Some? then Some(PayloadWithoutBody)
    else None
  }

  /** The last two checks: the id matches the contents and the signature is valid. */
  function CheckSignedNote(p: Primitives, note: Event): (r: AuthResult)
    ensures r.authorizedPubkey.Some? != r.error.Some?
    ensures r.authorizedPubkey.Some? <==> note.id == p.calculateId(note) && p.verifyEvent(note)
    ensures r.authorizedPubkey.Some? ==> r.authorizedPubkey.value == note.pubkey
    ensures note.id != p.calculateId(note) ==> r.error == Some(IdMismatch)
    ensures note.id == p.calculateId(note) && !p.verifyEvent(note) ==> r.error == Some(BadSignature)
  {
    if note.id != p.calculateId(note) then Deny(IdMismatch)
    else if !p.verifyEvent(note) then Deny(BadSignature)
    else AuthResult(Some(note.pubkey), None)
  }

  /**
   * `nip98_verify_auth_header`: exactly one of pubkey and error is set; the
   * request is authorised iff `Accepts` holds, and then for the note's author.
   * Anything thrown inside becomes an error message behind a fixed prefix.
   */
  function VerifyAuthHeader(p: Primitives, authHeader: Option<string>, url: string, httpMethod: string,
                            body: Option<seq<bv8>>): (r: AuthResult)
    ensures r.authorizedPubkey.Some? != r.error.Some?
    ensures r.authorizedPubkey.Some? <==> Accepts(p, authHeader, url, httpMethod, body)
    ensures r.authorizedPubkey.Some? ==> r.authorizedPubkey.value == p.decodeNote(authHeader.value[6..]).note.pubkey
    ensures authHeader.None? || authHeader == Some("") ==> r.error == Some(HeaderMissing)
    ensures authHeader.Some? && authHeader.value != "" && ' ' !in authHeader.value ==> r.error == Some(NotTwoParts)
    ensures authHeader.Some? && authHeader.value != "" && |Split(authHeader.value, ' ')| != 2 ==> r.error == Some(NotTwoParts)
    ensures authHeader.Some? && Split(authHeader.value, ' ') == ["Nostr", ""] ==> r.error == Some(NoEncodedNote)
    ensures authHeader.Some? && WellShaped(authHeader.value) ==>
              match p.decodeNote(authHeader.value[6..])
              case ParseError(message) => r.error == Some(CaughtPrefix + message)
              case Falsy => r.error == Some(NoteNotParsed)
              case Parsed(note) => r == CheckNote(p, note, url, httpMethod, body)
  {
    if authHeader.None? || authHeader.value == "" then Deny(HeaderMissing)
    else
      var h := authHeader.value;
      var authHeaderParts := Split(h, ' ');
      HeaderShape(h);
      if |authHeaderParts| != 2 then Deny(NotTwoParts)
      else if authHeaderParts[0] != "Nostr" then Deny(NotNostrScheme)
      else
        var base64EncodedNote := authHeaderParts[1];
        if base64EncodedNote == "" then Deny(NoEncodedNote)
        else
          match p.decodeNote(base64EncodedNote)
          case ParseError(message) => Deny(CaughtPrefix + message)
          case Falsy => Deny(NoteNotParsed)
          case Parsed(note) => CheckNote(p, note, url, httpMethod, body)
  }

  /** A split into `"Nostr"` and a non-empty second part comes from a `Nostr ` header without further spaces. */
  lemma HeaderShapeOnlyIf(h: string)
    requires |Split(h, ' ')| == 2 && Split(h, ' ')[0] == "Nostr" && Split(h, ' ')[1] != ""
    ensures WellShaped(h)
  {
    var parts := Split(h, ' ');
    SplitTwoParts(h, ' ', parts[0], parts[1]);
    assert parts == [parts[0], parts[1]];
    assert h[..6] == "Nostr ";
    assert h[6..] == parts[1];
  }

  /** A `Nostr ` header without further spaces splits into `"Nostr"` and the rest. */
  lemma HeaderShapeIf(h: string)
    requires WellShaped(h)
    ensures Split(h, ' ') == ["Nostr", h[6..]]
  {
    var rest := h[6..];
    assert h == "Nostr" + [' '] + rest by {
      assert h == h[..6] + rest;
    }
    assert ' ' !in "Nostr";
    SplitTwoParts(h, ' ', "Nostr", rest);
  }

  /** The split header is `["Nostr", b]` with `b` non-empty iff the header is `Nostr ` then `b` with no space in `b`. */
  lemma HeaderShape(h: string)
    ensures ' ' !in h ==> |Split(h, ' ')| == 1
    ensures (|Split(h, ' ')| == 2 && Split(h, ' ')[0] == "Nostr" && Split(h, ' ')[1] != "")
            <==> (WellShaped(h))
    ensures WellShaped(h) ==> Split(h, ' ') == ["Nostr", h[6..]]
  {
    if ' ' !in h {
      SplitNoSeparator(h, ' ');
    }
    var parts := Split(h, ' ');
    if |parts| == 2 && parts[0] == "Nostr" && parts[1] != "" {
      HeaderShapeOnlyIf(h);
    }
    if WellShaped(h) {
      HeaderShapeIf(h);
    }
  }

  // ---------------------------------------------------------------------------
  // Consequences of the rule.
  // ---------------------------------------------------------------------------

  /** A note older than 60 seconds, or dated in the future, never authorises. */
  lemma StaleOrFutureNoteRejected(p: Primitives, authHeader: Option<string>, url: string, httpMethod: string,
                                  body: Option<seq<bv8>>, note: Event)
    requires authHeader.Some? && |authHeader.value| > 6 && p.decodeNote(authHeader.value[6..]) == Parsed(note)
    requires p.now - note.createdAt > MaxAgeSeconds || p.now < note.createdAt
    ensures VerifyAuthHeader(p, authHeader, url, httpMethod, body).authorizedPubkey.None?
  {
  }

  /** A note carrying a `payload` tag is refused for a request without a body. */
  lemma PayloadTagNeedsBody(p: Primitives, authHeader: Option<string>, url: string, httpMethod: string, note: Event, i: nat)
    requires authHeader.Some? && |authHeader.value| > 6 && p.decodeNote(authHeader.value[6..]) == Parsed(note)
    requires i < |note.tags| && note.tags[i][0] == "payload"
    ensures VerifyAuthHeader(p, authHeader, url, httpMethod, None).authorizedPubkey.None?
  {
  }

  /** A note authorises a request with a body only if its first `payload` tag is the body's SHA-256. */
  lemma BodyIsBoundByHash(p: Primitives, authHeader: Option<string>, url: string, httpMethod: string, bytes: seq<bv8>)
    requires VerifyAuthHeader(p, authHeader, url, httpMethod, Some(bytes)).authorizedPubkey.Some?
    ensures FirstValue(p.decodeNote(authHeader.value[6..]).note.tags, "payload") == Some(p.hashSha256(bytes))
  {
  }

  /**
   * Missing `u` tag: the `[1]` on `undefined` throws, and the catch turns it
   * into an error result instead of letting it escape.
   */
  lemma {:induction false} MissingUrlTagIsCaught(p: Primitives, h: string, url: string, httpMethod: string,
                                                 body: Option<seq<bv8>>, note: Event)
    requires WellShaped(h) && p.decodeNote(h[6..]) == Parsed(note)
    requires note.kind == AuthKind
    requires forall i :: 0 <= i < |note.tags| ==> note.tags[i][0] != "u"
    ensures VerifyAuthHeader(p, Some(h), url, httpMethod, body) == Deny(CaughtPrefix + UndefinedIndex)
  {
    FindTagFirst(note.tags, "u");
    HeaderShape(h);
  }

  /** A string holding the separator splits into at least two pieces. */
  lemma SplitAtLeastTwo(s: string, sep: char)
    requires sep in s
    ensures |Split(s, sep)| >= 2
  {
    SplitJoin(s, sep);
  }

  /** `Nostr ` followed by a note with a further space (`Nostr a b`) is refused as not having two parts. */
  lemma ExtraSpaceRefused(p: Primitives, rest: string, url: string, httpMethod: string, body: Option<seq<bv8>>)
    requires ' ' in rest
    ensures VerifyAuthHeader(p, Some("Nostr " + rest), url, httpMethod, body).error == Some(NotTwoParts)
  {
    var h := "Nostr " + rest;
    assert h == "Nostr" + [' '] + rest;
    assert ' ' !in "Nostr";
    SplitAtSeparator("Nostr", ' ', rest);
    SplitAtLeastTwo(rest, ' ');
  }

  /** The bare scheme `Nostr ` is refused for want of an encoded note. */
  lemma EmptyNoteRefused(p: Primitives, url: string, httpMethod: string, body: Option<seq<bv8>>)
    ensures VerifyAuthHeader(p, Some("Nostr "), url, httpMethod, body).error == Some(NoEncodedNote)
  {
    assert "Nostr " == "Nostr" + [' '] + "";
    assert ' ' !in "Nostr";
    SplitTwoParts("Nostr ", ' ', "Nostr", "");
  }

  /** A header that does not start with the `Nostr` scheme word is refused with that reason. */
  lemma {:induction false} OtherSchemeRefused(p: Primitives, scheme: string, token: string, url: string, httpMethod: string,
                                              body: Option<seq<bv8>>)
    requires scheme != "Nostr" && ' ' !in scheme && ' ' !in token
    ensures VerifyAuthHeader(p, Some(scheme + " " + token), url, httpMethod, body) == Deny(NotNostrScheme)
  {
    SplitTwoParts(scheme + " " + token, ' ', scheme, token);
    assert scheme + " " + token == scheme + [' '] + token;
  }
}
