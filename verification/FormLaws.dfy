/** What the form parser makes of text that the printer did not write, and what printed text looks like. */
module FormLaws {
  import opened Wrappers
  import Text
  import opened FormCodec
  import P = PercentEncoding

  // ----- Printed text ------------------------------------------------------------------------------------

  /** Letters, digits and nine marks are printed as they are. */
  predicate IsPlain(c: char)
  {
    'A' <= c <= 'Z' || 'a' <= c <= 'z' || '0' <= c <= '9' || c in "-_.!~*'()"
  }

  lemma CharLength(c: char)
    ensures P.EncodeChar(c) != ""
    ensures IsPlain(c) <==> P.EncodeChar(c) == [c]
    ensures IsPlain(c) <==> |P.EncodeChar(c)| == 1
  {
    if !P.IsUnreserved(c) {
      P.ReadEscapes(P.Utf8(c), "");
    }
  }

  lemma {:induction false} EncodedLength(s: string)
    ensures |P.Encode(s)| >= |s|
    ensures |P.Encode(s)| == |s| <==> forall c :: c in s ==> IsPlain(c)
  {
    if s != "" {
      CharLength(s[0]);
      EncodedLength(s[1..]);
      assert forall c :: c in s <==> c == s[0] || c in s[1..];
    }
  }

  lemma {:induction false} PlainStays(s: string)
    requires forall c :: c in s ==> IsPlain(c)
    ensures P.Encode(s) == s
  {
    if s != "" {
      CharLength(s[0]);
      PlainStays(s[1..]);
      assert [s[0]] + s[1..] == s;
    }
  }

  /** A text is printed as it is exactly when all its characters are plain. */
  lemma EncodedIsSameIff(s: string)
    ensures P.Encode(s) == s <==> forall c :: c in s ==> IsPlain(c)
  {
    EncodedLength(s);
    if forall c :: c in s ==> IsPlain(c) {
      PlainStays(s);
    }
  }

  predicate IsHex(c: char)
  {
    c in "0123456789ABCDEF"
  }

  lemma {:induction false} EscapesAreUpper(bytes: seq<P.Byte>)
    ensures forall c :: c in P.EscapeAll(bytes) ==> c == '%' || IsHex(c)
  {
    if bytes != [] {
      EscapesAreUpper(bytes[1..]);
      DigitIsHex(bytes[0] / 16);
      DigitIsHex(bytes[0] % 16);
    }
  }

  lemma DigitIsHex(n: int)
    requires 0 <= n < 16
    ensures P.HexDigit(n) == "0123456789ABCDEF"[n]
  {
  }

  /** Anything else becomes the escapes of its UTF-8 bytes, in upper case. */
  lemma ReservedIsEscaped(c: char)
    requires !IsPlain(c)
    ensures |P.EncodeChar(c)| == 3 * |P.Utf8(c)| && P.ReadBytes(P.EncodeChar(c), |P.Utf8(c)|) == Some(P.Utf8(c))
    ensures forall x :: x in P.EncodeChar(c) ==> x == '%' || IsHex(x)
  {
    P.ReadEscapes(P.Utf8(c), "");
    assert P.EscapeAll(P.Utf8(c)) + "" == P.EncodeChar(c);
    EscapesAreUpper(P.Utf8(c));
  }

  // ----- Text from elsewhere -------------------------------------------------------------------------------

  lemma DecodeStep(s: string, head: string, c: char, tail: string)
    requires s == head + tail && s != "" && P.DecodeChar(s) == Some(P.Piece(c, |head|))
    ensures P.Decode(s) == match P.Decode(tail) case None => None case Some(t) => Some([c] + t)
  {
    assert s[|head|..] == tail;
  }

  lemma {:induction false} DecodeAfterEncoded(s: string, rest: string, decoded: string) returns (whole: string, all: string)
    requires P.Decode(rest) == Some(decoded)
    ensures whole == P.Encode(s) + rest && all == s + decoded
    ensures P.Decode(whole) == Some(all)
  {
    if s == "" {
      whole, all := rest, decoded;
    } else {
      var tail, later := DecodeAfterEncoded(s[1..], rest, decoded);
      whole, all := Prepended(s[0], tail, later);
      AddedInFront(P.EncodeChar(s[0]), P.Encode(s[1..]), rest);
      AddedInFront([s[0]], s[1..], decoded);
      assert [s[0]] + s[1..] == s;
    }
  }

  lemma AddedInFront(a: string, b: string, c: string)
    ensures a + (b + c) == a + b + c
  {
  }

  lemma Prepended(c: char, tail: string, later: string) returns (whole: string, all: string)
    requires P.Decode(tail) == Some(later)
    ensures whole == P.EncodeChar(c) + tail && all == [c] + later && P.Decode(whole) == Some(all)
  {
    whole, all := P.EncodeChar(c) + tail, [c] + later;
    P.DecodeEncodedChar(c, tail);
    DecodeStep(whole, P.EncodeChar(c), c, tail);
  }

  lemma {:induction false} PlusBetween(s: string, rest: string)
    requires '+' !in s
    ensures PlusToSpace(s + "+" + rest) == s + " " + PlusToSpace(rest)
  {
    if s == "" {
      assert ("" + "+" + rest)[1..] == rest;
    } else {
      var t := s + "+" + rest;
      assert t[1..] == s[1..] + "+" + rest;
      PlusBetween(s[1..], rest);
    }
  }

  /** A plus sign reads as a space. */
  lemma PlusReadsAsSpace(s: string, t: string)
    ensures DecodePart(P.Encode(s) + "+" + P.Encode(t)) == Some(s + " " + t)
  {
    P.EncodedHasNoSeparators(s);
    P.EncodedHasNoSeparators(t);
    PlusBetween(P.Encode(s), P.Encode(t));
    PlainTextStays(P.Encode(t));
    SpaceBetween(s, t, P.Encode(s) + " " + P.Encode(t));
  }

  lemma SpaceBetween(s: string, t: string, text: string)
    requires text == P.Encode(s) + " " + P.Encode(t)
    ensures P.Decode(text) == Some(s + " " + t)
  {
    var rest := " " + P.Encode(t);
    P.DecodeEncode(t);
    DecodeStep(rest, " ", ' ', P.Encode(t));
    var whole, all := DecodeAfterEncoded(s, rest, " " + t);
    AddedInFront(P.Encode(s), " ", P.Encode(t));
    AddedInFront(s, " ", t);
  }

  /** A key without an equals sign has the empty value. */
  lemma BareKeyIsEmpty(key: string)
    ensures ParsePair(P.Encode(key)) == Some((key, ""))
  {
    PartRoundTrip(key);
  }

  lemma TwoPairs(a: string, b: string, first: (string, string), second: (string, string))
    requires a != "" && '&' !in a && ParsePair(a) == Some(first)
    requires b != "" && '&' !in b && ParsePair(b) == Some(second)
    ensures Parsed(Some(a + "&" + b)) == Some(map[first.0 := first.1][second.0 := second.1])
  {
    Text.SplitAtSeparator(a, b, '&');
    Text.SplitPlain(b, '&');
    var pairs := [a, b];
    assert Text.Split(a + "&" + b, '&') == pairs;
    assert pairs[1..] == [b] && [b][1..] == [];
    assert ParsePairs([b], map[first.0 := first.1]) == ParsePairs([], map[first.0 := first.1][second.0 := second.1]);
  }

  /** Of two pairs with one key the later one counts. */
  lemma LastPairWins(key: string, first: string, second: string)
    ensures Parsed(Some(EncodePair(key, first) + "&" + EncodePair(key, second))) == Some(map[key := second])
  {
    PairRoundTrip(key, first);
    PairRoundTrip(key, second);
    TwoPairs(EncodePair(key, first), EncodePair(key, second), (key, first), (key, second));
    assert map[key := first][key := second] == map[key := second];
  }

  /** Empty pairs count for nothing. */
  lemma EmptyPairsAreSkipped(key: string, value: string)
    ensures Parsed(Some("&" + EncodePair(key, value) + "&")) == Some(map[key := value])
    ensures Parsed(None) == Some(map[])
  {
    PairRoundTrip(key, value);
    EmptyPairsAround(EncodePair(key, value), key, value);
    assert Text.Split("", '&') == [""] && [""][1..] == [];
    assert ParsePairs([""], map[]) == ParsePairs([], map[]);
  }

  lemma EmptyPairsAround(a: string, key: string, value: string)
    requires a != "" && '&' !in a && ParsePair(a) == Some((key, value))
    ensures Parsed(Some("&" + a + "&")) == Some(map[key := value])
  {
    var s := "&" + a + "&";
    assert s == "" + ['&'] + (a + ['&'] + "");
    Text.SplitAtSeparator("", a + ['&'] + "", '&');
    Text.SplitAtSeparator(a, "", '&');
    assert Text.Split("", '&') == [""];
    var pairs := ["", a, ""];
    assert Text.Split(s, '&') == pairs;
    assert pairs[1..] == [a, ""] && [a, ""][1..] == [""] && [""][1..] == [];
    assert ParsePairs([""], map[key := value]) == ParsePairs([], map[key := value]);
    assert ParsePairs([a, ""], map[]) == ParsePairs([""], map[][key := value]);
  }

  /** Parsing throws exactly when some non-empty pair has a part that cannot be decoded. */
  lemma {:induction false} FailsExactly(pairs: seq<string>, entries: map<string, string>)
    ensures ParsePairs(pairs, entries) == None <==> exists p :: p in pairs && p != "" && ParsePair(p) == None
  {
    if pairs != [] {
      assert forall p :: p in pairs <==> p == pairs[0] || p in pairs[1..];
      if pairs[0] == "" {
        FailsExactly(pairs[1..], entries);
      } else if ParsePair(pairs[0]).Some? {
        var entry := ParsePair(pairs[0]).value;
        FailsExactly(pairs[1..], entries[entry.0 := entry.1]);
      }
    }
  }
}
