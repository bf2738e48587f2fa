/** Form bodies: an object printed as application/x-www-form-urlencoded text and parsed back into a map. */
module FormCodec {
  import opened Wrappers
  import Text
  import P = PercentEncoding

  // ----- Printing ------------------------------------------------------------------------------------

  function EncodePair(key: string, value: string): string
  {
    P.Encode(key) + "=" + P.Encode(value)
  }

  /** Keys in the object's own order; null and undefined entries are dropped. */
  function Pairs(fields: map<string, Option<string>>, keys: seq<string>): seq<string>
    requires forall k :: k in keys ==> k in fields
  {
    if keys == [] then []
    else
      (if fields[keys[0]].Some? then [EncodePair(keys[0], fields[keys[0]].value)] else [])
      + Pairs(fields, keys[1..])
  }

  function FormEncode(fields: map<string, Option<string>>, keys: seq<string>): string
    requires forall k :: k in keys ==> k in fields
  {
    Text.Join(Pairs(fields, keys), '&')
  }

  // ----- Parsing -------------------------------------------------------------------------------------

  function PlusToSpace(s: string): string
  {
    if s == "" then "" else [if s[0] == '+' then ' ' else s[0]] + PlusToSpace(s[1..])
  }

  /** `String.prototype.indexOf` for one character. */
  function IndexOf(s: string, c: char): (i: Option<nat>)
    ensures i.Some? ==> i.value < |s| && s[i.value] == c && c !in s[..i.value]
    ensures i.None? ==> c !in s
  {
    if s == "" then None
    else if s[0] == c then Some(0)
    else
      var rest := IndexOf(s[1..], c);
      if rest.Some? then
        assert s[..rest.value + 1] == [s[0]] + s[1..][..rest.value];
        Some(rest.value + 1)
      else None
  }

  function DecodePart(s: string): Option<string>
  {
    P.Decode(PlusToSpace(s))
  }

  /** None where decoding throws. */
  function ParsePair(pair: string): Option<(string, string)>
  {
    var i := IndexOf(pair, '=');
    var key := DecodePart(if i.None? then pair else pair[..i.value]);
    var value := if i.None? then Some("") else DecodePart(pair[i.value + 1..]);
    if key.Some? && value.Some? then Some((key.value, value.value)) else None
  }

  function ParsePairs(pairs: seq<string>, entries: map<string, string>): Option<map<string, string>>
  {
    if pairs == [] then Some(entries)
    else if pairs[0] == "" then ParsePairs(pairs[1..], entries)
    else
      var entry := ParsePair(pairs[0]);
      if entry.None? then None else ParsePairs(pairs[1..], entries[entry.value.0 := entry.value.1])
  }

  /** A missing body reads as the empty one. */
  function Parsed(body: Option<string>): Option<map<string, string>>
  {
    ParsePairs(Text.Split(body.GetOr(""), '&'), map[])
  }

  /** The loop that fills the map; None where it throws. */
  method ParseForm(body: Option<string>) returns (entries: Option<map<string, string>>)
    ensures entries == Parsed(body)
  {
    var pairs := Text.Split(body.GetOr(""), '&');
    var parsed: map<string, string> := map[];
    var n := 0;
    while n < |pairs|
      invariant 0 <= n <= |pairs|
      invariant ParsePairs(pairs[n..], parsed) == Parsed(body)
    {
      var pair := pairs[n];
      n := n + 1;
      if pair == "" {
        continue;
      }
      var i := IndexOf(pair, '=');
      var key := DecodePart(if i.None? then pair else pair[..i.value]);
      var value := if i.None? then Some("") else DecodePart(pair[i.value + 1..]);
      if key.None? || value.None? {
        return None;
      }
      parsed := parsed[key.value := value.value];
    }
    return Some(parsed);
  }

  // ----- Parsing undoes printing ---------------------------------------------------------------------

  lemma {:induction false} PlainTextStays(s: string)
    requires '+' !in s
    ensures PlusToSpace(s) == s
  {
    if s != "" {
      PlainTextStays(s[1..]);
      assert [s[0]] + s[1..] == s;
    }
  }

  lemma IndexOfSeparator(head: string, c: char, tail: string)
    requires c !in head
    ensures IndexOf(head + [c] + tail, c) == Some(|head|)
  {
    var s := head + [c] + tail;
    assert s[|head|] == c;
  }

  lemma PartRoundTrip(s: string)
    ensures DecodePart(P.Encode(s)) == Some(s)
    ensures '=' !in P.Encode(s) && '&' !in P.Encode(s)
  {
    P.EncodedHasNoSeparators(s);
    PlainTextStays(P.Encode(s));
    P.DecodeEncode(s);
  }

  lemma ParsePairAt(head: string, tail: string)
    requires '=' !in head && DecodePart(head).Some? && DecodePart(tail).Some?
    ensures ParsePair(head + "=" + tail) == Some((DecodePart(head).value, DecodePart(tail).value))
  {
    var pair := head + ['='] + tail;
    IndexOfSeparator(head, '=', tail);
    assert pair[..|head|] == head && pair[|head| + 1..] == tail;
  }

  lemma PairRoundTrip(key: string, value: string)
    ensures ParsePair(EncodePair(key, value)) == Some((key, value))
    ensures EncodePair(key, value) != "" && '&' !in EncodePair(key, value)
  {
    PartRoundTrip(key);
    PartRoundTrip(value);
    ParsePairAt(P.Encode(key), P.Encode(value));
  }

  /** The entries under `keys` that have a value. */
  function Present(fields: map<string, Option<string>>, keys: seq<string>): map<string, string>
  {
    map k | k in fields && k in keys && fields[k].Some? :: fields[k].value
  }

  lemma PresentStep(fields: map<string, Option<string>>, keys: seq<string>, entries: map<string, string>)
    requires keys != [] && keys[0] in fields
    ensures fields[keys[0]].None? ==> Present(fields, keys) == Present(fields, keys[1..])
    ensures fields[keys[0]].Some? ==>
              entries + Present(fields, keys) == entries[keys[0] := fields[keys[0]].value] + Present(fields, keys[1..])
  {
    assert forall k :: k in keys <==> k == keys[0] || k in keys[1..];
  }

  lemma {:induction false} PairsRoundTrip(fields: map<string, Option<string>>, keys: seq<string>, entries: map<string, string>)
    requires forall k :: k in keys ==> k in fields
    ensures forall p :: p in Pairs(fields, keys) ==> p != "" && '&' !in p
    ensures ParsePairs(Pairs(fields, keys), entries) == Some(entries + Present(fields, keys))
  {
    if keys == [] {
      assert entries + Present(fields, keys) == entries;
    } else {
      PresentStep(fields, keys, entries);
      if fields[keys[0]].None? {
        PairsRoundTrip(fields, keys[1..], entries);
        assert Pairs(fields, keys) == Pairs(fields, keys[1..]);
      } else {
        PairRoundTrip(keys[0], fields[keys[0]].value);
        PairsRoundTrip(fields, keys[1..], entries[keys[0] := fields[keys[0]].value]);
        assert Pairs(fields, keys)[1..] == Pairs(fields, keys[1..]);
      }
    }
  }

  /** Parsing the printed text gives back exactly the entries that have a value, whatever characters their
      keys and values contain. */
  lemma {:induction false} FormRoundTrip(fields: map<string, Option<string>>, keys: seq<string>)
    requires forall k :: k in keys <==> k in fields
    ensures Parsed(Some(FormEncode(fields, keys)))
         == Some(map k | k in fields && fields[k].Some? :: fields[k].value)
  {
    var pairs := Pairs(fields, keys);
    PairsRoundTrip(fields, keys, map[]);
    assert map[] + Present(fields, keys) == map k | k in fields && fields[k].Some? :: fields[k].value;
    if pairs != [] {
      Text.SplitJoin(pairs, '&');
    } else {
      assert Text.Split("", '&') == [""] && ParsePairs([""], map[]) == ParsePairs([""][1..], map[]);
    }
  }

  /** Two forms print alike only if they have the same entries, whichever order the keys come in. */
  lemma {:induction false} PrintingIsInjective(
    a: map<string, Option<string>>, ka: seq<string>, b: map<string, Option<string>>, kb: seq<string>)
    requires (forall k :: k in ka <==> k in a) && (forall k :: k in kb <==> k in b)
    requires FormEncode(a, ka) == FormEncode(b, kb)
    ensures forall k: string :: k in a && a[k].Some? ==> k in b && b[k] == a[k]
    ensures forall k: string :: k in b && b[k].Some? ==> k in a && a[k] == b[k]
  {
    FormRoundTrip(a, ka);
    FormRoundTrip(b, kb);
    var m := Parsed(Some(FormEncode(a, ka))).value;
    assert forall k: string :: k in m <==> k in a && a[k].Some?;
    assert forall k: string :: k in m <==> k in b && b[k].Some?;
    assert forall k: string :: k in m ==> a[k] == Some(m[k]) && b[k] == Some(m[k]);
  }
}
