/** What the JWT decoder promises, stated over all inputs. */
module JwtProperties {
  import opened Wrappers
  import opened Text
  import opened Json
  import Base64
  import Sorting
  import opened JwtParser

  /** A part using a base64url character never decodes: the field keeps the raw text. */
  lemma Base64UrlPartStaysRaw(parse: Parser, part: string)
    requires '-' in part || '_' in part
    ensures DecodePart(parse, part) == Raw(part)
  {
    Base64.Base64UrlRejected(part);
  }

  /**
   * A token whose header or payload part uses base64url characters is never
   * valid: the page either throws or reports it invalid.
   */
  lemma Base64UrlTokenInvalid(parse: Parser, now: int, original: string)
    requires var parts := Split(original, '.');
      exists i :: 0 <= i < 2 && i < |parts| && ('-' in parts[i] || '_' in parts[i])
    ensures var r := GenerateDisplayObject(parse, now, original);
      r.Failure? || !r.value.valid
  {
    var parts := Split(original, '.');
    var i :| 0 <= i < 2 && i < |parts| && ('-' in parts[i] || '_' in parts[i]);
    Base64UrlPartStaysRaw(parse, parts[i]);
  }

  /** A part produced by the standard encoder decodes to whatever the parser makes of its bytes. */
  lemma EncodedPartDecodes(parse: Parser, bytes: seq<Base64.Byte>)
    ensures parse(Base64.BinaryString(bytes)).Some? ==>
      DecodePart(parse, Base64.Encode(bytes)) == Parsed(parse(Base64.BinaryString(bytes)).value)
    ensures parse(Base64.BinaryString(bytes)).None? ==>
      DecodePart(parse, Base64.Encode(bytes)) == Raw(Base64.Encode(bytes))
  {
    Base64.DecodeEncode(bytes);
  }

  /**
   * A token built as `encode(json(H)) + "." + encode(json(P)) + "." + sig`, with
   * `H` and `P` JSON objects, decodes to a valid record holding `H` and `P`.
   */
  lemma EncodedTokenDecodes(parse: Parser, now: int, h: seq<Base64.Byte>, p: seq<Base64.Byte>, sig: string,
                            header: map<string, JsonValue>, payload: map<string, JsonValue>)
    requires parse(Base64.BinaryString(h)) == Some(Obj(header))
    requires parse(Base64.BinaryString(p)) == Some(Obj(payload))
    ensures var r := GenerateDisplayObject(parse, now, Base64.Encode(h) + "." + Base64.Encode(p) + "." + sig);
      && r.Success?
      && r.value.valid
      && r.value.header == Parsed(Obj(header))
      && r.value.payload == Parsed(Obj(payload))
      && r.value.parts == [Base64.Encode(h), Base64.Encode(p)] + Split(sig, '.')
      && r.value.expiration == (if "exp" in payload && Truthy(payload["exp"]) then payload["exp"] else Num(0))
  {
    var eh, ep := Base64.Encode(h), Base64.Encode(p);
    var original := eh + "." + ep + "." + sig;
    NoDotInEncoding(h);
    NoDotInEncoding(p);
    ThreeWaySplit(eh, ep, sig);
    var parts := Split(original, '.');
    EncodedPartDecodes(parse, h);
    EncodedPartDecodes(parse, p);
    assert DecodePart(parse, parts[0]) == Parsed(Obj(header));
    assert DecodePart(parse, parts[1]) == Parsed(Obj(payload));
  }

  /** Two dot-free parts and a signature joined by dots split back into those parts, then the signature's. */
  lemma ThreeWaySplit(a: string, b: string, sig: string)
    requires '.' !in a && '.' !in b
    ensures '.' in a + "." + b + "." + sig
    ensures Split(a + "." + b + "." + sig, '.') == [a, b] + Split(sig, '.')
  {
    var tail := b + ['.'] + sig;
    SplitPrefix(b, '.', sig);
    SplitPrefix(a, '.', tail);
    Regroup(a, b, sig);
  }

  /** The dotted token text, regrouped as its first part, a dot and the rest. */
  lemma Regroup(a: string, b: string, sig: string)
    ensures a + "." + b + "." + sig == a + ['.'] + (b + ['.'] + sig)
    ensures (a + "." + b + "." + sig)[|a|] == '.'
  {
  }

  /**
   * The same token written as JWTs are, with the `=` padding removed from
   * each segment, decodes to the same valid record.
   */
  lemma UnpaddedTokenDecodes(parse: Parser, now: int, h: seq<Base64.Byte>, p: seq<Base64.Byte>, sig: string,
                             header: map<string, JsonValue>, payload: map<string, JsonValue>)
    requires parse(Base64.BinaryString(h)) == Some(Obj(header))
    requires parse(Base64.BinaryString(p)) == Some(Obj(payload))
    ensures var r := GenerateDisplayObject(parse, now, Base64.EncodeUnpadded(h) + "." + Base64.EncodeUnpadded(p) + "." + sig);
      && r.Success?
      && r.value.valid
      && r.value.header == Parsed(Obj(header))
      && r.value.payload == Parsed(Obj(payload))
      && r.value.parts == [Base64.EncodeUnpadded(h), Base64.EncodeUnpadded(p)] + Split(sig, '.')
  {
    var eh, ep := Base64.EncodeUnpadded(h), Base64.EncodeUnpadded(p);
    assert '.' !in eh && '.' !in ep;
    ThreeWaySplit(eh, ep, sig);
    Base64.DecodeUnpadded(h);
    Base64.DecodeUnpadded(p);
    assert DecodePart(parse, eh) == Parsed(Obj(header));
    assert DecodePart(parse, ep) == Parsed(Obj(payload));
  }

  lemma NoDotInEncoding(bytes: seq<Base64.Byte>)
    ensures '.' !in Base64.Encode(bytes)
  {
  }

  /** Input without a `.` has an `undefined` payload, and reading its `exp` throws. */
  lemma NoSeparatorThrows(parse: Parser, now: int, original: string)
    requires '.' !in original
    ensures GenerateDisplayObject(parse, now, original) == Failure(ExpOfUndefined)
  {
    SplitWithoutSeparator(original, '.');
  }

  /** A payload that decodes to JSON `null` makes reading `exp` throw. */
  lemma NullPayloadThrows(parse: Parser, now: int, original: string)
    requires '.' in original
    requires DecodePart(parse, Split(original, '.')[1]) == Parsed(Null)
    ensures GenerateDisplayObject(parse, now, original) == Failure(ExpOfNull)
  {
  }

  /** The empty input (the box after a clear or a save) throws. */
  lemma EmptyInputThrows(parse: Parser, now: int)
    ensures GenerateDisplayObject(parse, now, "") == Failure(ExpOfUndefined)
  {
    NoSeparatorThrows(parse, now, "");
  }

  /** Header, payload and signature are the first three decoded parts; later parts leave no trace. */
  lemma FieldsArePositional(parse: Parser, now: int, original: string)
    requires GenerateDisplayObject(parse, now, original).Success?
    ensures var d := GenerateDisplayObject(parse, now, original).value;
      && d.header == DecodePart(parse, d.parts[0])
      && d.payload == DecodePart(parse, d.parts[1])
      && (|d.parts| >= 3 ==> d.signature == DecodePart(parse, d.parts[2]))
      && (|d.parts| == 2 <==> d.signature.Missing?)
  {
  }

  /** Both decodes throw, or both succeed with records equal in everything but `original` and `parts`. */
  predicate AgreeBesidesText(r1: Result<JwtDetails, JsError>, r2: Result<JwtDetails, JsError>) {
    && (r1.Success? <==> r2.Success?)
    && (r1.Success? ==> r1.value.(original := "", parts := []) == r2.value.(original := "", parts := []))
  }

  /** Extra parts change nothing: only the first three parts feed the record. */
  lemma LaterPartsIgnored(parse: Parser, now: int, parts: seq<string>)
    requires |parts| >= 3
    requires forall i :: 0 <= i < |parts| ==> '.' !in parts[i]
    ensures AgreeBesidesText(GenerateDisplayObject(parse, now, Join(parts[..3], '.')),
                             GenerateDisplayObject(parse, now, Join(parts, '.')))
  {
    var lead := parts[..3];
    var s1, s2 := Join(lead, '.'), Join(parts, '.');
    assert forall i :: 0 <= i < |lead| ==> lead[i] == parts[i];
    SplitJoin(parts, '.');
    SplitJoin(lead, '.');
    assert Split(s1, '.') == lead && Split(s2, '.') == parts;
    assert lead[..3] == lead;
    SameLeadingPartsSameFields(parse, now, s1, s2);
  }

  /** Two inputs whose first three parts agree decode to records that differ only in `original` and `parts`. */
  lemma SameLeadingPartsSameFields(parse: Parser, now: int, s1: string, s2: string)
    requires |Split(s1, '.')| >= 3 && |Split(s2, '.')| >= 3
    requires Split(s1, '.')[..3] == Split(s2, '.')[..3]
    ensures AgreeBesidesText(GenerateDisplayObject(parse, now, s1), GenerateDisplayObject(parse, now, s2))
  {
    var p1, p2 := Split(s1, '.'), Split(s2, '.');
    assert p1[0] == p2[0] && p1[1] == p2[1] && p1[2] == p2[2] by {
      assert p1[..3][0] == p1[0] && p1[..3][1] == p1[1] && p1[..3][2] == p1[2];
      assert p2[..3][0] == p2[0] && p2[..3][1] == p2[1] && p2[..3][2] == p2[2];
    }
  }

  /** The clock only stamps `timestamp`: two decodes of the same text agree on everything else. */
  lemma ClockOnlyStampsTimestamp(parse: Parser, t1: int, t2: int, original: string)
    ensures var r1 := GenerateDisplayObject(parse, t1, original);
      var r2 := GenerateDisplayObject(parse, t2, original);
      && (r1.Success? <==> r2.Success?)
      && (r1.Success? ==> r1.value == r2.value.(timestamp := t1))
  {
  }

  /** With no (truthy) `exp` claim the stored expiration is 0, which every positive clock reading has passed. */
  lemma ZeroExpirationIsExpired(now: int)
    requires now > 0
    ensures Expired(Num(0), now) == Some(true)
  {
  }

  /** Once expired, a saved token stays expired as the clock moves on. */
  lemma ExpiredStaysExpired(expiration: JsonValue, now: int, later: int)
    requires Expired(expiration, now) == Some(true) && now <= later
    ensures Expired(expiration, later) == Some(true)
  {
  }

  /**
   * A decoded token whose payload carries a numeric `exp` (seconds) is shown
   * expired exactly when the clock (milliseconds) is past it, `exp: 0`
   * included; a payload object without `exp` counts as expiring at 0.
   */
  lemma DecodedExpiryVerdict(parse: Parser, t: int, original: string, now: int)
    requires GenerateDisplayObject(parse, t, original).Success?
    ensures var d := GenerateDisplayObject(parse, t, original).value;
      d.payload.Parsed? && d.payload.value.Obj? && "exp" in d.payload.value.fields && d.payload.value.fields["exp"].Num? ==>
        Expired(d.expiration, now) == Some(d.payload.value.fields["exp"].n * 1000 < now)
    ensures var d := GenerateDisplayObject(parse, t, original).value;
      d.payload.Parsed? && d.payload.value.Obj? && "exp" !in d.payload.value.fields ==>
        Expired(d.expiration, now) == Some(0 < now)
  {
  }

  /**
   * With distinct timestamps the ascending order is unique, so any correct
   * sort (whatever algorithm the engine uses) gives the model's result.
   */
  lemma SortedSavedUnique(saved: seq<JwtDetails>, other: seq<JwtDetails>)
    requires DistinctTimestamps(saved)
    requires multiset(other) == multiset(saved) && Ascending(other)
    ensures other == SortSaved(saved)
  {
    var r := SortSaved(saved);
    SortedIsAscending(r);
    SortedIsAscending(other);
    forall i, j | 0 <= i < |r| && 0 <= j < |r| && r[i] != r[j]
      ensures TimestampAfter(r[i], r[j]) || TimestampAfter(r[j], r[i])
    {
      assert r[i] in multiset(saved) && r[j] in multiset(saved);
      var x :| 0 <= x < |saved| && saved[x] == r[i];
      var y :| 0 <= y < |saved| && saved[y] == r[j];
    }
    Sorting.SortedPermutationUnique(TimestampAfter, r, other);
  }

  /** Re-sorting an ascending list keeps it as it is. */
  lemma SortKeepsAscending(saved: seq<JwtDetails>)
    requires Ascending(saved)
    ensures SortSaved(saved) == saved
  {
    SortedIsAscending(saved);
    Sorting.SortedIsFixpoint(TimestampAfter, saved);
  }

  /** Two tokens saved with timestamps `t1 < t2`, in either order, are listed as `[t1, t2]`. */
  lemma TwoSavesInTimestampOrder(a: JwtDetails, b: JwtDetails)
    requires a.timestamp < b.timestamp
    ensures SortSaved([a, b]) == [a, b]
    ensures SortSaved([b, a]) == [a, b]
  {
    OnlyAscendingPair(SortSaved([a, b]), a, b);
    assert multiset([b, a]) == multiset([a, b]);
    OnlyAscendingPair(SortSaved([b, a]), a, b);
  }

  /** The only ascending arrangement of two records with `t1 < t2` is `[t1, t2]`. */
  lemma OnlyAscendingPair(r: seq<JwtDetails>, a: JwtDetails, b: JwtDetails)
    requires a.timestamp < b.timestamp
    requires multiset(r) == multiset([a, b]) && Ascending(r)
    ensures r == [a, b]
  {
    assert |r| == |multiset(r)| == 2;
    assert r[0] in multiset(r) && r[1] in multiset(r);
    assert r[0] == a;
    assert r == [r[0], r[1]];
  }
}
