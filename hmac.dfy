/**
 * The OAuth callback signature (src/utils/hmac.ts): the four callback
 * parameters are sorted by key, percent-encoded, joined as `k=v` pairs with
 * `&`, signed with HMAC-SHA256 (RFC 2104 over FIPS 180-4) keyed with the
 * client secret, and rendered as lower-case hex. Verification decodes both
 * hex strings as Node's Buffer does and compares the bytes.
 *
 * HMAC-SHA256 itself is the parameter `mac`: any function from message bytes
 * to a 32-byte digest, the secret key being fixed inside it.
 */
module Hmac {
  import opened Wrappers
  import opened Uri

  type Digest = d: seq<byte> | |d| == 32 witness seq(32, i => 0)

  /** HMAC-SHA256 under the process secret. */
  type Mac = seq<byte> -> Digest

  /** The `HmacParams` object, with its four string-valued properties. */
  datatype HmacParams = HmacParams(code: string, company_id: string, redirect_to: string, timestamp: string)

  /** One property of the object: its key and its value. */
  datatype Entry = Entry(key: string, value: string)

  /** The object's properties in the order the object literal defines them. */
  function Entries(p: HmacParams): (es: seq<Entry>)
    ensures |es| == 4
  {
    [Entry("code", p.code), Entry("company_id", p.company_id),
     Entry("redirect_to", p.redirect_to), Entry("timestamp", p.timestamp)]
  }

  function Keys(es: seq<Entry>): (ks: seq<string>)
    ensures |ks| == |es|
    ensures forall i :: 0 <= i < |es| ==> ks[i] == es[i].key
  {
    if es == [] then [] else [es[0].key] + Keys(es[1..])
  }

  // ------------------------------------------------------------- sorting keys

  /** Lexicographic order on strings, character by character; a prefix comes first. */
  predicate Precedes(a: string, b: string) {
    |a| == 0 || (|b| > 0 && (a[0] < b[0] || (a[0] == b[0] && Precedes(a[1..], b[1..]))))
  }

  lemma {:induction false} PrecedesTotal(a: string, b: string)
    ensures Precedes(a, b) || Precedes(b, a)
  {
    if |a| > 0 && |b| > 0 && a[0] == b[0] {
      PrecedesTotal(a[1..], b[1..]);
    }
  }

  /** Strings that agree up to index `i` and differ there are ordered by that character. */
  lemma {:induction false} PrecedesAt(a: string, b: string, i: nat)
    requires i < |a| && i < |b| && a[..i] == b[..i] && a[i] < b[i]
    ensures Precedes(a, b)
  {
    if i > 0 {
      assert a[0] == a[..i][0] == b[..i][0] == b[0];
      assert a[1..][..i - 1] == a[..i][1..] == b[..i][1..] == b[1..][..i - 1];
      PrecedesAt(a[1..], b[1..], i - 1);
    }
  }

  predicate SortedByKey(es: seq<Entry>) {
    forall i :: 0 <= i < |es| - 1 ==> Precedes(es[i].key, es[i + 1].key)
  }

  function Insert(e: Entry, es: seq<Entry>): (r: seq<Entry>)
    requires SortedByKey(es)
    ensures SortedByKey(r)
    ensures |r| == |es| + 1
    ensures r[0] == e || (|es| > 0 && r[0] == es[0])
  {
    if es == [] then [e]
    else if Precedes(e.key, es[0].key) then [e] + es
    else
      PrecedesTotal(e.key, es[0].key);
      var tail := Insert(e, es[1..]);
      assert es == [es[0]] + es[1..];
      [es[0]] + tail
  }

  /**
   * `Object.keys(params).sort()` followed by `params[key]` for each key: the
   * properties in key order (the keys are distinct, so ordering the
   * properties by key is the same as ordering the keys). An insertion sort;
   * the result is ordered, and `SortByKeyPermutes` shows it is a permutation.
   */
  function SortByKey(es: seq<Entry>): (r: seq<Entry>)
    ensures SortedByKey(r)
    ensures |r| == |es|
  {
    if es == [] then []
    else
      assert es == [es[0]] + es[1..];
      Insert(es[0], SortByKey(es[1..]))
  }

  /** Inserting adds exactly the one entry. */
  lemma {:induction false} InsertPermutes(e: Entry, es: seq<Entry>)
    requires SortedByKey(es)
    ensures multiset(Insert(e, es)) == multiset(es) + multiset{e}
  {
    if es != [] && !Precedes(e.key, es[0].key) {
      InsertPermutes(e, es[1..]);
      assert es == [es[0]] + es[1..];
    }
  }

  /** Sorting keeps every entry, as many times as it occurs: the result is a permutation. */
  lemma {:induction false} SortByKeyPermutes(es: seq<Entry>)
    ensures multiset(SortByKey(es)) == multiset(es)
  {
    if es != [] {
      SortByKeyPermutes(es[1..]);
      InsertPermutes(es[0], SortByKey(es[1..]));
      assert es == [es[0]] + es[1..];
    }
  }

  /** Sorting a sorted sequence changes nothing. */
  lemma {:induction false} SortSorted(es: seq<Entry>)
    requires SortedByKey(es)
    ensures SortByKey(es) == es
  {
    if es != [] {
      assert SortedByKey(es[1..]) by {
        forall i | 0 <= i < |es[1..]| - 1 ensures Precedes(es[1..][i].key, es[1..][i + 1].key) {
          assert es[1..][i] == es[i + 1] && es[1..][i + 1] == es[i + 2];
        }
      }
      SortSorted(es[1..]);
      assert es == [es[0]] + es[1..];
    }
  }

  /**
   * The object literal already lists its keys in sorted order, so the
   * canonical order is `code`, `company_id`, `redirect_to`, `timestamp`.
   */
  lemma CanonicalOrder(p: HmacParams)
    ensures SortByKey(Entries(p)) == Entries(p)
    ensures Keys(SortByKey(Entries(p))) == ["code", "company_id", "redirect_to", "timestamp"]
  {
    EntriesSorted(p);
    SortSorted(Entries(p));
    EntryKeys(p);
  }

  lemma EntryKeys(p: HmacParams)
    ensures Keys(Entries(p)) == ["code", "company_id", "redirect_to", "timestamp"]
  {
    var ks := Keys(Entries(p));
    assert ks == [ks[0], ks[1], ks[2], ks[3]];
  }

  lemma EntriesSorted(p: HmacParams)
    ensures SortedByKey(Entries(p))
  {
    PrecedesAt("code", "company_id", 2);
    PrecedesAt("company_id", "redirect_to", 0);
    PrecedesAt("redirect_to", "timestamp", 0);
  }

  // ------------------------------------------------------- the canonical string

  /** `${encodeURIComponent(key)}=${encodeURIComponent(value)}` */
  function EncodePair(e: Entry): string {
    EncodeURIComponent(e.key) + "=" + EncodeURIComponent(e.value)
  }

  function EncodePairs(es: seq<Entry>): (r: seq<string>)
    ensures |r| == |es|
    ensures forall i :: 0 <= i < |es| ==> r[i] == EncodePair(es[i])
  {
    if es == [] then [] else [EncodePair(es[0])] + EncodePairs(es[1..])
  }

  function Join(parts: seq<string>, sep: char): string {
    if |parts| == 0 then []
    else if |parts| == 1 then parts[0]
    else parts[0] + [sep] + Join(parts[1..], sep)
  }

  /** The query string the signature covers: sorted, encoded `k=v` pairs joined by `&`. */
  function CanonicalString(p: HmacParams): string {
    Join(EncodePairs(SortByKey(Entries(p))), '&')
  }

  /** The four keys are already in order, so sorting moves nothing: one fixed layout. */
  lemma CanonicalLayout(p: HmacParams)
    ensures CanonicalString(p)
         == EncodePair(Entry("code", p.code)) + "&"
          + EncodePair(Entry("company_id", p.company_id)) + "&"
          + EncodePair(Entry("redirect_to", p.redirect_to)) + "&"
          + EncodePair(Entry("timestamp", p.timestamp))
  {
    CanonicalOrder(p);
    JoinFour(EncodePairs(Entries(p)), '&');
  }

  lemma JoinFour(ps: seq<string>, sep: char)
    requires |ps| == 4
    ensures Join(ps, sep) == ps[0] + [sep] + ps[1] + [sep] + ps[2] + [sep] + ps[3]
  {
    assert ps[1..][1..][1..] == [ps[3]];
    assert Join(ps[1..][1..], sep) == ps[2] + [sep] + ps[3];
    assert Join(ps[1..], sep) == ps[1] + [sep] + (ps[2] + [sep] + ps[3]);
    ConcatAssoc(ps[1] + [sep], ps[2] + [sep], ps[3]);
  }

  // -------------------------------------------- reading the canonical string back

  /** `s.split(sep)`: the pieces between separators; there is always at least one. */
  function Split(s: string, sep: char): (r: seq<string>)
    ensures |r| >= 1
  {
    if s == [] then [[]]
    else
      var rest := Split(s[1..], sep);
      if s[0] == sep then [[]] + rest else [[s[0]] + rest[0]] + rest[1..]
  }

  lemma {:induction false} SplitNoSeparator(a: string, sep: char)
    requires sep !in a
    ensures Split(a, sep) == [a]
  {
    if a != [] {
      SplitNoSeparator(a[1..], sep);
      assert [a[0]] + a[1..] == a;
    }
  }

  lemma {:induction false} SplitAtSeparator(a: string, b: string, sep: char)
    requires sep !in a
    ensures Split(a + [sep] + b, sep) == [a] + Split(b, sep)
  {
    var s := a + [sep] + b;
    if a == [] {
      assert s[0] == sep && s[1..] == b;
    } else {
      assert s[1..] == a[1..] + [sep] + b;
      SplitAtSeparator(a[1..], b, sep);
      assert [a[0]] + a[1..] == a;
    }
  }

  /** Splitting a join gives the parts back when no part holds the separator. */
  lemma {:induction false} SplitJoin(parts: seq<string>, sep: char)
    requires |parts| >= 1
    requires forall i :: 0 <= i < |parts| ==> sep !in parts[i]
    ensures Split(Join(parts, sep), sep) == parts
  {
    if |parts| == 1 {
      SplitNoSeparator(parts[0], sep);
    } else {
      SplitAtSeparator(parts[0], Join(parts[1..], sep), sep);
      SplitJoin(parts[1..], sep);
      assert [parts[0]] + parts[1..] == parts;
    }
  }

  /** Reads one `k=v` pair: exactly one `=`, and both sides decode. */
  function ParsePair(pair: string): Option<Entry> {
    var kv := Split(pair, '=');
    if |kv| != 2 then None
    else match (DecodeURIComponent(kv[0]), DecodeURIComponent(kv[1]))
      case (Success(k), Success(v)) => Some(Entry(k, v))
      case _ => None
  }

  function ParsePairs(parts: seq<string>): (r: Option<seq<Entry>>)
    ensures r.Some? ==> |r.value| == |parts|
  {
    if parts == [] then Some([])
    else match (ParsePair(parts[0]), ParsePairs(parts[1..]))
      case (Some(e), Some(es)) => Some([e] + es)
      case _ => None
  }

  /** Reads the properties back from a query string of `&`-separated pairs. */
  function ParseQuery(s: string): Option<seq<Entry>> {
    ParsePairs(Split(s, '&'))
  }

  /** One encoded pair is ASCII, holds no `&`, and parses back to its property. */
  lemma ParseEncodedPair(e: Entry)
    ensures ParsePair(EncodePair(e)) == Some(e)
    ensures '&' !in EncodePair(e) && IsAscii(EncodePair(e))
  {
    var ek := EncodeURIComponent(e.key);
    var ev := EncodeURIComponent(e.value);
    EncodedIsPlain(e.key);
    EncodedIsPlain(e.value);
    assert EncodePair(e) == ek + ['='] + ev;
    SplitAtSeparator(ek, ev, '=');
    SplitNoSeparator(ev, '=');
    DecodeEncode(e.key);
    DecodeEncode(e.value);
    assert forall i :: 0 <= i < |EncodePair(e)| ==> EncodePair(e)[i] as int < 0x80 by {
      forall i | 0 <= i < |EncodePair(e)| ensures EncodePair(e)[i] as int < 0x80 {
        if i > |ek| { assert EncodePair(e)[i] == ev[i - |ek| - 1]; }
        else if i < |ek| { assert EncodePair(e)[i] == ek[i]; }
      }
    }
  }

  lemma {:induction false} ParseEncodedPairs(es: seq<Entry>)
    ensures ParsePairs(EncodePairs(es)) == Some(es)
  {
    if es != [] {
      ParseEncodedPair(es[0]);
      ParseEncodedPairs(es[1..]);
      assert EncodePairs(es)[1..] == EncodePairs(es[1..]);
      assert [es[0]] + es[1..] == es;
    }
  }

  /** Encoding, joining, splitting and decoding properties gives them back. */
  lemma ParseQueryOfJoin(es: seq<Entry>)
    requires |es| >= 1
    ensures ParseQuery(Join(EncodePairs(es), '&')) == Some(es)
  {
    forall i | 0 <= i < |es| ensures '&' !in EncodePairs(es)[i] {
      ParseEncodedPair(es[i]);
    }
    SplitJoin(EncodePairs(es), '&');
    ParseEncodedPairs(es);
  }

  /** The canonical string determines the parameters: parsing it gives them back, in key order. */
  lemma ParseCanonicalString(p: HmacParams)
    ensures ParseQuery(CanonicalString(p)) == Some(Entries(p))
  {
    CanonicalOrder(p);
    ParseQueryOfJoin(Entries(p));
  }

  /**
   * Distinct parameter tuples give distinct canonical strings: a `&` or `=`
   * inside a value cannot move a pair boundary.
   */
  lemma CanonicalStringInjective(p: HmacParams, q: HmacParams)
    requires CanonicalString(p) == CanonicalString(q)
    ensures p == q
  {
    ParseCanonicalString(p);
    ParseCanonicalString(q);
    assert Entries(p)[0].value == p.code && Entries(q)[0].value == q.code;
    assert Entries(p)[1].value == p.company_id && Entries(q)[1].value == q.company_id;
    assert Entries(p)[2].value == p.redirect_to && Entries(q)[2].value == q.redirect_to;
    assert Entries(p)[3].value == p.timestamp && Entries(q)[3].value == q.timestamp;
  }

  lemma {:induction false} JoinAscii(parts: seq<string>, sep: char)
    requires sep as int < 0x80
    requires forall i :: 0 <= i < |parts| ==> IsAscii(parts[i])
    ensures IsAscii(Join(parts, sep))
  {
    if |parts| > 1 {
      JoinAscii(parts[1..], sep);
      var j := Join(parts, sep);
      assert j == parts[0] + [sep] + Join(parts[1..], sep);
      forall i | 0 <= i < |j| ensures j[i] as int < 0x80 {
        if i < |parts[0]| { assert j[i] == parts[0][i]; }
        else if i > |parts[0]| { assert j[i] == Join(parts[1..], sep)[i - |parts[0]| - 1]; }
      }
    }
  }

  /** The canonical string is plain ASCII, so its UTF-8 bytes are its characters. */
  lemma CanonicalStringIsAscii(p: HmacParams)
    ensures IsAscii(CanonicalString(p))
  {
    var es := SortByKey(Entries(p));
    forall i | 0 <= i < |es| ensures IsAscii(EncodePairs(es)[i]) {
      ParseEncodedPair(es[i]);
    }
    JoinAscii(EncodePairs(es), '&');
  }

  // ------------------------------------------------------------------ hex

  predicate IsLowerHex(c: char) {
    ('0' <= c <= '9') || ('a' <= c <= 'f')
  }

  function LowerHexDigit(d: int): (c: char)
    requires 0 <= d < 16
    ensures IsLowerHex(c) && IsHexDigit(c) && HexValue(c) == d
  {
    if d < 10 then ('0' as int + d) as char else ('a' as int + d - 10) as char
  }

  /** `digest('hex')`: two lower-case hex digits per byte. */
  function ToHex(bs: seq<byte>): (h: string)
    ensures |h| == 2 * |bs|
    ensures forall i :: 0 <= i < |h| ==> IsLowerHex(h[i])
  {
    if bs == [] then []
    else
      var tail := ToHex(bs[1..]);
      var h := [LowerHexDigit(bs[0] / 16), LowerHexDigit(bs[0] % 16)] + tail;
      assert forall i :: 2 <= i < |h| ==> h[i] == tail[i - 2];
      h
  }

  /**
   * `Buffer.from(s, 'hex')`: decodes digit pairs of either case from the
   * start and stops at the first pair that is not two hex digits; an odd
   * last digit is dropped. It never throws.
   */
  function FromHex(s: string): (bs: seq<byte>)
    ensures |bs| <= |s| / 2
  {
    if |s| < 2 || !IsHexDigit(s[0]) || !IsHexDigit(s[1]) then []
    else [HexValue(s[0]) * 16 + HexValue(s[1])] + FromHex(s[2..])
  }

  /**
   * Decoding stops short only at a pair that is not two hex digits, so a
   * string of hex digits decodes completely.
   */
  lemma {:induction false} FromHexStops(s: string)
    ensures |FromHex(s)| < |s| / 2 ==> !IsHexDigit(s[2 * |FromHex(s)|]) || !IsHexDigit(s[2 * |FromHex(s)| + 1])
    ensures (forall i :: 0 <= i < |s| ==> IsHexDigit(s[i])) ==> |FromHex(s)| == |s| / 2
  {
    if |s| >= 2 && IsHexDigit(s[0]) && IsHexDigit(s[1]) {
      var t := s[2..];
      FromHexStops(t);
      assert |FromHex(s)| == 1 + |FromHex(t)|;
      assert forall i :: 0 <= i < |t| ==> t[i] == s[i + 2];
    }
  }

  /** Hex decoding reads back the bytes of a hex rendering, and then goes on. */
  lemma {:induction false} FromHexToHex(bs: seq<byte>, rest: string)
    ensures FromHex(ToHex(bs) + rest) == bs + FromHex(rest)
  {
    if bs != [] {
      var hi, lo := LowerHexDigit(bs[0] / 16), LowerHexDigit(bs[0] % 16);
      var tail := ToHex(bs[1..]) + rest;
      assert ToHex(bs) == [hi, lo] + ToHex(bs[1..]);
      ConcatAssoc([hi, lo], ToHex(bs[1..]), rest);
      FromHexPair(hi, lo, tail);
      FromHexToHex(bs[1..], rest);
      ConsAppend(bs, FromHex(rest));
    } else {
      assert ToHex(bs) + rest == rest;
    }
  }

  lemma ConsAppend(a: seq<byte>, b: seq<byte>)
    requires a != []
    ensures [a[0]] + (a[1..] + b) == a + b
  {
    assert [a[0]] + a[1..] == a;
  }

  /** Two hex digits at the front decode to one byte, and decoding goes on after them. */
  lemma FromHexPair(hi: char, lo: char, tail: string)
    requires IsHexDigit(hi) && IsHexDigit(lo)
    ensures FromHex([hi, lo] + tail) == [HexValue(hi) * 16 + HexValue(lo)] + FromHex(tail)
  {
    var s := [hi, lo] + tail;
    assert s[0] == hi && s[1] == lo && s[2..] == tail;
  }

  // ------------------------------------------------------------ sign and verify

  /** `generateHmac(params)`: 64 lower-case hex digits that spell the digest of the canonical string. */
  function GenerateHmac(mac: Mac, p: HmacParams): (h: string)
    ensures |h| == 64
    ensures forall i :: 0 <= i < |h| ==> IsLowerHex(h[i])
    ensures FromHex(h) == mac(Utf8(CanonicalString(p)))
  {
    var d := mac(Utf8(CanonicalString(p)));
    FromHexToHex(d, []);
    assert ToHex(d) + [] == ToHex(d);
    ToHex(d)
  }

  /** `timingSafeEqual(a, b)`: throws a RangeError unless the lengths agree, else compares the bytes. */
  function TimingSafeEqual(a: seq<byte>, b: seq<byte>): (r: Result<bool, string>)
    ensures r.Failure? <==> |a| != |b|
    ensures r.Success? ==> (r.value <==> a == b)
  {
    if |a| != |b| then Failure("Input buffers must have the same byte length")
    else Success(a == b)
  }

  /**
   * `verifyHmac(params, received)`: decodes both signatures, returns false on
   * a length mismatch, and otherwise compares the bytes; a thrown error also
   * gives false. It accepts exactly the strings whose hex decoding is the
   * digest of the canonical string.
   */
  function VerifyHmac(mac: Mac, p: HmacParams, received: string): (ok: bool)
    ensures ok <==> FromHex(received) == mac(Utf8(CanonicalString(p)))
    ensures |FromHex(received)| != 32 ==> !ok
  {
    var expected := FromHex(GenerateHmac(mac, p));
    var got := FromHex(received);
    if |expected| != |got| then false
    else match TimingSafeEqual(expected, got)
      case Success(equal) => equal
      case Failure(_) => false
  }

  /** A freshly generated signature verifies. */
  lemma VerifyGenerated(mac: Mac, p: HmacParams)
    ensures VerifyHmac(mac, p, GenerateHmac(mac, p))
  {
  }

  /**
   * A signature accepted for `q` that was generated for some other `p`
   * means HMAC-SHA256 maps two different canonical strings to one digest.
   */
  lemma AcceptedForOtherParamsIsCollision(mac: Mac, p: HmacParams, q: HmacParams)
    requires p != q
    requires VerifyHmac(mac, q, GenerateHmac(mac, p))
    ensures Utf8(CanonicalString(p)) != Utf8(CanonicalString(q))
    ensures mac(Utf8(CanonicalString(p))) == mac(Utf8(CanonicalString(q)))
  {
    CanonicalStringIsAscii(p);
    CanonicalStringIsAscii(q);
    if Utf8(CanonicalString(p)) == Utf8(CanonicalString(q)) {
      Utf8AsciiInjective(CanonicalString(p), CanonicalString(q));
      CanonicalStringInjective(p, q);
    }
  }

  /**
   * Because the comparison is on decoded bytes, the generated signature
   * followed by text that does not begin with two hex digits still verifies
   * (Buffer.from stops decoding at the first non-hex pair, or drops an odd
   * last digit).
   */
  lemma TrailingTextAccepted(mac: Mac, p: HmacParams, junk: string)
    requires |junk| < 2 || !IsHexDigit(junk[0]) || !IsHexDigit(junk[1])
    ensures VerifyHmac(mac, p, GenerateHmac(mac, p) + junk)
  {
    var d := mac(Utf8(CanonicalString(p)));
    FromHexToHex(d, []);
    assert ToHex(d) + [] == ToHex(d);
    FromHexToHex(d, junk);
  }

  /** Two more hex digits decode to a 33rd byte, so that signature is refused. */
  lemma TrailingHexPairRejected(mac: Mac, p: HmacParams)
    ensures !VerifyHmac(mac, p, GenerateHmac(mac, p) + "00")
  {
    var d := mac(Utf8(CanonicalString(p)));
    FromHexToHex(d, "00");
  }
}
