/** The codec of src/utils.ts: text to unpadded hex digits and back, and text
    to a list of field elements (felts) of at most 31 characters each and back. */
module Utils {
  import opened Results
  import opened Hex

  /** A field element, kept as the number it denotes. */
  type Felt = nat

  // ----- hex2ascii -----

  /** The pattern ^0x([0-9a-fA-F]{2})+$: `0x` and one or more pairs of hex digits. */
  predicate IsHexString(v: string) {
    |v| >= 4 && |v| % 2 == 0 && v[0] == '0' && v[1] == 'x' && AllHexDigits(v[2..])
  }

  /** `parseInt(pair, 16)` on a pair of hex digits. */
  function PairValue(hi: char, lo: char): (b: nat)
    requires IsHexDigit(hi) && IsHexDigit(lo)
    ensures b < 256
  {
    DigitValue(hi) * 16 + DigitValue(lo)
  }

  /** The characters whose codes the successive digit pairs of d spell. */
  function DecodePairs(d: string): (s: string)
    requires |d| % 2 == 0 && AllHexDigits(d)
    ensures |s| == |d| / 2
    ensures forall k :: 0 <= k < |s| ==> s[k] as int == PairValue(d[2 * k], d[2 * k + 1])
    decreases |d|
  {
    if d == [] then "" else DecodePairs(d[..|d| - 2]) + [PairValue(d[|d| - 2], d[|d| - 1]) as char]
  }

  /** What hex2ascii returns or throws. */
  function DecodeHex(v: string): (r: Result<string>)
    ensures r.Success? <==> IsHexString(v)
    ensures r.Failure? ==> r.error == NotAnHexString
    ensures r.Success? ==> |r.value| == (|v| - 2) / 2
    ensures r.Success? ==> forall k :: 0 <= k < |r.value| ==> r.value[k] as int == PairValue(v[2 + 2 * k], v[3 + 2 * k])
  {
    if IsHexString(v) then Success(DecodePairs(v[2..])) else Failure(NotAnHexString)
  }

  /** hex2ascii: test the pattern, then append one character per digit pair. */
  method Hex2Ascii(v: string) returns (r: Result<string>)
    ensures r == DecodeHex(v)
  {
    if !IsHexString(v) {
      return Failure(NotAnHexString);
    }
    var str := "";
    var i := 2;
    while i < |v|
      invariant 2 <= i <= |v| && i % 2 == 0
      invariant str == DecodePairs(v[2..i])
    {
      assert v[2..i + 2] == v[2..i] + [v[i], v[i + 1]];
      DecodePairsSnoc(v[2..i], v[i], v[i + 1]);
      str := str + [PairValue(v[i], v[i + 1]) as char];
      i := i + 2;
    }
    assert v[2..i] == v[2..];
    return Success(str);
  }

  // ----- ascii2hex -----

  /** `parts.join('')`. */
  function Join(parts: seq<string>): string {
    if parts == [] then "" else Join(parts[..|parts| - 1]) + parts[|parts| - 1]
  }

  /** Every character code lies in 16..255, so `toString(16)` gives it exactly two digits. */
  predicate TwoDigitCodes(s: string) {
    forall k :: 0 <= k < |s| ==> 16 <= s[k] as int < 256
  }

  /** What ascii2hex returns: each character code's minimal lowercase hex, in order. */
  function HexOfText(s: string): (h: string)
    ensures AllLowerHexDigits(h) && AllHexDigits(h)
    ensures |h| >= |s|
    ensures TwoDigitCodes(s) ==> |h| == 2 * |s|
  {
    if s == [] then ""
    else
      var code := s[|s| - 1] as nat;
      MinimalHexLength(code);
      HexOfText(s[..|s| - 1]) + MinimalHex(code)
  }

  /** ascii2hex: push each code's hex into a list, then join it. */
  method Ascii2Hex(str: string) returns (hex: string)
    ensures hex == HexOfText(str)
  {
    var parts: seq<string> := [];
    for n := 0 to |str|
      invariant Join(parts) == HexOfText(str[..n])
    {
      var part := MinimalHex(str[n] as nat);
      assert (parts + [part])[..|parts|] == parts;
      assert str[..n + 1][..n] == str[..n];
      parts := parts + [part];
    }
    assert str[..|str|] == str;
    hex := Join(parts);
  }

  lemma DecodePairsSnoc(d: string, hi: char, lo: char)
    requires |d| % 2 == 0 && AllHexDigits(d) && IsHexDigit(hi) && IsHexDigit(lo)
    ensures |d + [hi, lo]| % 2 == 0 && AllHexDigits(d + [hi, lo])
    ensures DecodePairs(d + [hi, lo]) == DecodePairs(d) + [PairValue(hi, lo) as char]
  {
    var e := d + [hi, lo];
    assert e[..|e| - 2] == d;
  }

  /** For codes in 16..255 the last character contributes exactly its two digits. */
  lemma HexOfTextSnoc(s: string)
    requires s != [] && 16 <= s[|s| - 1] as int < 256
    ensures var code := s[|s| - 1] as nat;
      HexOfText(s) == HexOfText(s[..|s| - 1]) + [Digit(code / 16), Digit(code % 16)]
  {
    MinimalHexLength(s[|s| - 1] as nat);
  }

  lemma {:induction false} DecodePairsOfHex(s: string)
    requires TwoDigitCodes(s)
    ensures DecodePairs(HexOfText(s)) == s
  {
    if s != [] {
      var init, c := s[..|s| - 1], s[|s| - 1];
      assert s == init + [c];
      var code := c as nat;
      DecodePairsOfHex(init);
      HexOfTextSnoc(s);
      DecodePairsSnoc(HexOfText(init), Digit(code / 16), Digit(code % 16));
      assert PairValue(Digit(code / 16), Digit(code % 16)) == code;
    }
  }

  /** Codes below 256 take at most two digits each, and exactly two only when all are at least 16. */
  lemma {:induction false} HexOfTextLength(s: string)
    requires forall k :: 0 <= k < |s| ==> s[k] as int < 256
    ensures |HexOfText(s)| <= 2 * |s|
    ensures |HexOfText(s)| == 2 * |s| ==> TwoDigitCodes(s)
  {
    if s != [] {
      var init, code := s[..|s| - 1], s[|s| - 1] as nat;
      HexOfTextLength(init);
      MinimalHexLength(code);
      assert HexOfText(s) == HexOfText(init) + MinimalHex(code);
    }
  }

  lemma DecodeHexOfText(s: string)
    requires s != [] && TwoDigitCodes(s)
    ensures DecodeHex("0x" + HexOfText(s)) == Success(s)
  {
    var h := HexOfText(s);
    var v := "0x" + h;
    assert v[2..] == h;
    assert v[0] == '0' && v[1] == 'x';
    assert |v| == 2 + 2 * |s|;
    assert IsHexString(v);
    DecodePairsOfHex(s);
    assert DecodeHex(v) == Success(DecodePairs(h));
  }

  lemma DecodeHexOfTextOnly(s: string)
    requires DecodeHex("0x" + HexOfText(s)) == Success(s)
    ensures s != [] && TwoDigitCodes(s)
  {
    var v := "0x" + HexOfText(s);
    assert |v| == 2 + |HexOfText(s)|;
    forall k | 0 <= k < |s|
      ensures s[k] as int < 256
    {
      assert s[k] as int == PairValue(v[2 + 2 * k], v[3 + 2 * k]);
    }
    HexOfTextLength(s);
  }

  /** hex2ascii("0x" + ascii2hex(s)) gives s back exactly when s is nonempty and
      every character code lies in 16..255; "0x" alone is rejected. */
  lemma HexRoundTrip(s: string)
    ensures DecodeHex("0x" + HexOfText(s)) == Success(s) <==> s != [] && TwoDigitCodes(s)
  {
    if s != [] && TwoDigitCodes(s) {
      DecodeHexOfText(s);
    }
    if DecodeHex("0x" + HexOfText(s)) == Success(s) {
      DecodeHexOfTextOnly(s);
    }
  }

  lemma {:induction false} HexOfTextHead(s: string)
    requires s != []
    ensures HexOfText(s)[0] == MinimalHex(s[0] as nat)[0]
  {
    if |s| > 1 {
      HexOfTextHead(s[..|s| - 1]);
    }
  }

  // ----- stringToFelt -----

  /** The characters `.` does not match in a JavaScript regular expression. */
  predicate IsLineTerminator(c: char) {
    c == '\n' || c == '\r' || c == '\U{2028}' || c == '\U{2029}'
  }

  predicate NoLineTerminators(s: string) {
    forall k :: 0 <= k < |s| ==> !IsLineTerminator(s[k])
  }

  /** How many characters `.{1,max}` takes greedily at the start of s. */
  function LeadingRun(s: string, max: nat): (n: nat)
    ensures n <= max && n <= |s|
    ensures NoLineTerminators(s[..n])
    ensures n < max && n < |s| ==> IsLineTerminator(s[n])
  {
    if max == 0 || s == [] || IsLineTerminator(s[0]) then 0
    else
      var m := LeadingRun(s[1..], max - 1);
      assert s[..m + 1] == [s[0]] + s[1..][..m];
      m + 1
  }

  /** `str.match(/.{1,31}/g)`, with [] standing for null: every maximal run of
      characters other than line terminators, cut greedily into pieces of at most 31. */
  function MatchChunks(s: string): (chunks: seq<string>)
    ensures forall i :: 0 <= i < |chunks| ==> 1 <= |chunks[i]| <= 31 && NoLineTerminators(chunks[i])
    decreases |s|
  {
    if s == [] then []
    else if IsLineTerminator(s[0]) then MatchChunks(s[1..])
    else
      var n := LeadingRun(s, 31);
      [s[..n]] + MatchChunks(s[n..])
  }

  /** s without its line terminators. */
  function StripLineTerminators(s: string): string {
    if s == [] then ""
    else (if IsLineTerminator(s[0]) then "" else [s[0]]) + StripLineTerminators(s[1..])
  }

  lemma {:induction false} JoinCons(a: string, rest: seq<string>)
    ensures Join([a] + rest) == a + Join(rest)
  {
    if rest != [] {
      JoinCons(a, rest[..|rest| - 1]);
      assert ([a] + rest)[..|rest|] == [a] + rest[..|rest| - 1];
    }
  }

  lemma {:induction false} StripPrefix(s: string, n: nat)
    requires n <= |s| && NoLineTerminators(s[..n])
    ensures StripLineTerminators(s) == s[..n] + StripLineTerminators(s[n..])
  {
    if n > 0 {
      assert s[1..][..n - 1] == s[..n][1..];
      StripPrefix(s[1..], n - 1);
      assert s[1..][n - 1..] == s[n..];
      assert s[..n] == [s[0]] + s[1..][..n - 1];
    }
  }

  /** The chunks, joined, are the input minus its line terminators. */
  lemma {:induction false} MatchChunksCover(s: string)
    ensures Join(MatchChunks(s)) == StripLineTerminators(s)
    decreases |s|
  {
    if s != [] {
      if IsLineTerminator(s[0]) {
        MatchChunksCover(s[1..]);
      } else {
        var n := LeadingRun(s, 31);
        MatchChunksCover(s[n..]);
        JoinCons(s[..n], MatchChunks(s[n..]));
        StripPrefix(s, n);
      }
    }
  }

  function Min(a: int, b: int): int {
    if a < b then a else b
  }

  lemma SliceOfSuffix(s: string, n: nat, a: nat, b: nat)
    requires n <= |s| && a <= b <= |s| - n
    ensures s[n..][a..b] == s[n + a..n + b]
  {
  }

  /** On text without line terminators there are ceil(|s|/31) chunks and
      chunk i is s[31i..min(31i+31, |s|)]. */
  lemma {:induction false} ChunkPositions(s: string)
    requires NoLineTerminators(s)
    ensures |MatchChunks(s)| == (|s| + 30) / 31
    ensures forall i :: 0 <= i < |MatchChunks(s)| ==> MatchChunks(s)[i] == s[31 * i .. Min(31 * i + 31, |s|)]
    decreases |s|
  {
    var chunks := MatchChunks(s);
    if s != [] {
      var n := LeadingRun(s, 31);
      assert n == Min(31, |s|);
      var rest := s[n..];
      assert NoLineTerminators(rest);
      ChunkPositions(rest);
      assert chunks == [s[..n]] + MatchChunks(rest);
      forall i | 1 <= i < |chunks|
        ensures chunks[i] == s[31 * i .. Min(31 * i + 31, |s|)]
      {
        assert n == 31;
        var j := i - 1;
        var hi := Min(31 * j + 31, |rest|);
        assert chunks[i] == MatchChunks(rest)[j] == rest[31 * j .. hi];
        SliceOfSuffix(s, 31, 31 * j, hi);
      }
    }
  }

  /** On text without line terminators: the chunks are contiguous pieces of s
      in order, ceil(|s|/31) of them, all but the last holding 31 characters,
      and they join back to s. */
  lemma MatchChunksLayout(s: string)
    requires NoLineTerminators(s)
    ensures |MatchChunks(s)| == (|s| + 30) / 31
    ensures forall i :: 0 <= i < |MatchChunks(s)| ==> MatchChunks(s)[i] == s[31 * i .. Min(31 * i + 31, |s|)]
    ensures forall i :: 0 <= i < |MatchChunks(s)| - 1 ==> |MatchChunks(s)[i]| == 31
    ensures Join(MatchChunks(s)) == s
  {
    ChunkPositions(s);
    MatchChunksCover(s);
    StripPrefix(s, |s|);
    assert s[..|s|] == s;
  }

  /** The big-endian integer whose base-256 digits are the character codes. */
  function BigEndian(s: string): nat {
    if s == [] then 0 else BigEndian(s[..|s| - 1]) * 256 + s[|s| - 1] as nat
  }

  /** toFelt("0x" + ascii2hex(chunk)). A chunk of at most 31 characters with
      codes below 256 (so also codes below 16, which take one digit) gives a
      felt below 2^248. */
  function ChunkFelt(chunk: string): (f: Felt)
    ensures |chunk| <= 31 && (forall k :: 0 <= k < |chunk| ==> chunk[k] as int < 256) ==> f < Pow(2, 248)
  {
    var t := "0x" + HexOfText(chunk);
    assert t[..2] == "0x" && t[2..] == HexOfText(chunk);
    if |chunk| <= 31 && (forall k :: 0 <= k < |chunk| ==> chunk[k] as int < 256) then
      HexOfTextLength(chunk);
      PowMonotone(16, |t| - 2, 62);
      Pow16(62);
      ToFelt(t)
    else
      ToFelt(t)
  }

  /** What stringToFelt returns or throws. */
  function StringToFelt(str: string): (r: Result<seq<Felt>>)
    ensures r.Success? <==> StripLineTerminators(str) != ""
    ensures r.Failure? ==> r.error == MatchIsNull
    ensures r.Success? ==> |r.value| == |MatchChunks(str)|
    ensures r.Success? ==> forall i :: 0 <= i < |r.value| ==> r.value[i] == HexValue(HexOfText(MatchChunks(str)[i]))
  {
    var chunks := MatchChunks(str);
    MatchChunksCover(str);
    if chunks == [] then Failure(MatchIsNull)
    else Success(seq(|chunks|, i requires 0 <= i < |chunks| => ChunkFelt(chunks[i])))
  }

  lemma {:induction false} HexValueOfText(c: string)
    requires TwoDigitCodes(c)
    ensures HexValue(HexOfText(c)) == BigEndian(c)
  {
    if c != [] {
      var init, code := c[..|c| - 1], c[|c| - 1] as nat;
      HexValueOfText(init);
      MinimalHexLength(code);
      HexValueAppendPair(HexOfText(init), Digit(code / 16), Digit(code % 16));
    }
  }

  lemma {:induction false} BigEndianBound(c: string)
    requires forall k :: 0 <= k < |c| ==> c[k] as int < 256
    ensures BigEndian(c) < Pow(256, |c|)
  {
    if c != [] {
      BigEndianBound(c[..|c| - 1]);
    }
  }

  lemma {:induction false} PowMonotone(b: nat, m: nat, n: nat)
    requires b >= 1 && m <= n
    ensures Pow(b, m) <= Pow(b, n)
  {
    if m < n {
      PowMonotone(b, m, n - 1);
      PowPositive(b, n - 1);
      assert Pow(b, n) == b * Pow(b, n - 1);
    }
  }

  lemma {:induction false} PowPositive(b: nat, e: nat)
    requires b > 0
    ensures Pow(b, e) > 0
  {
    if e > 0 {
      PowPositive(b, e - 1);
    }
  }

  /** A chunk of at most 31 characters with codes in 16..255 becomes the
      big-endian integer of its codes, which is below 2^248. */
  lemma ChunkFeltValue(c: string)
    requires TwoDigitCodes(c)
    ensures ChunkFelt(c) == BigEndian(c)
    ensures |c| <= 31 ==> ChunkFelt(c) < Pow(2, 248)
  {
    HexValueOfText(c);
    if |c| <= 31 {
      BigEndianBound(c);
      PowMonotone(256, |c|, 31);
      Pow256(31);
    }
  }

  /** A 62-character text without line terminators gives exactly two felts, one per 31 characters. */
  lemma SixtyTwoCharacters(s: string)
    requires |s| == 62 && NoLineTerminators(s)
    ensures MatchChunks(s) == [s[..31], s[31..]]
    ensures StringToFelt(s).Success? && |StringToFelt(s).value| == 2
  {
    MatchChunksLayout(s);
  }

  // ----- hexArrayToString -----

  /** toHex(f) has an even number of digits, so hex2ascii accepts it. */
  predicate EvenHex(f: Felt) {
    |MinimalHex(f)| % 2 == 0
  }

  /** The map callback of hexArrayToString: hex2ascii(toHex(f)). It fails
      exactly when toHex(f) has an odd number of digits (0 itself is "0x0"). */
  function DecodeFelt(f: Felt): (r: Result<string>)
    ensures r.Success? <==> EvenHex(f)
    ensures r.Failure? ==> r.error == NotAnHexString
  {
    var v := ToHex(f);
    assert v[2..] == MinimalHex(f);
    assert v[0] == '0' && v[1] == 'x';
    DecodeHex(v)
  }

  /** What hexArrayToString returns or throws: hex2ascii(toHex(item)) for each
      item, joined in order. */
  function HexArrayToString(tokenUri: seq<Felt>): (r: Result<string>)
    ensures r.Failure? ==> r.error == NotAnHexString
  {
    if tokenUri == [] then Success("")
    else
      JoinDecoded(HexArrayToString(tokenUri[..|tokenUri| - 1]), DecodeFelt(tokenUri[|tokenUri| - 1]))
  }

  /** Two decoded parts joined in order, or the first failure. */
  function JoinDecoded(a: Result<string>, b: Result<string>): Result<string> {
    if a.Failure? then a else if b.Failure? then b else Success(a.value + b.value)
  }

  /** hexArrayToString succeeds exactly when every item's toHex has an even
      number of digits. */
  lemma {:induction false} HexArrayToStringSucceeds(tokenUri: seq<Felt>)
    ensures HexArrayToString(tokenUri).Success? <==> forall i :: 0 <= i < |tokenUri| ==> EvenHex(tokenUri[i])
  {
    if tokenUri != [] {
      var init := tokenUri[..|tokenUri| - 1];
      HexArrayToStringSucceeds(init);
      assert forall i :: 0 <= i < |init| ==> init[i] == tokenUri[i];
    }
  }

  lemma AppendInit<T>(xs: seq<T>, ys: seq<T>)
    requires ys != []
    ensures (xs + ys)[..|xs + ys| - 1] == xs + ys[..|ys| - 1]
    ensures (xs + ys)[|xs + ys| - 1] == ys[|ys| - 1]
  {
  }

  /** Decoding a concatenated list is decoding each part, joined in order. */
  lemma {:induction false} HexArrayToStringAppend(xs: seq<Felt>, ys: seq<Felt>)
    requires HexArrayToString(xs).Success? && HexArrayToString(ys).Success?
    ensures HexArrayToString(xs + ys) == Success(HexArrayToString(xs).value + HexArrayToString(ys).value)
    decreases |ys|
  {
    if ys == [] {
      assert xs + ys == xs;
      assert HexArrayToString(xs).value + HexArrayToString(ys).value == HexArrayToString(xs).value;
    } else {
      var init, f := ys[..|ys| - 1], ys[|ys| - 1];
      AppendInit(xs, ys);
      HexArrayToStringAppend(xs, init);
      assert HexArrayToString(xs + init) == JoinDecoded(HexArrayToString(xs), HexArrayToString(init));
      JoinDecodedAssoc(HexArrayToString(xs), HexArrayToString(init), DecodeFelt(f));
    }
  }

  lemma JoinDecodedAssoc(a: Result<string>, b: Result<string>, d: Result<string>)
    requires a.Success? && JoinDecoded(b, d).Success?
    ensures JoinDecoded(JoinDecoded(a, b), d) == Success(a.value + JoinDecoded(b, d).value)
  {
    assert (a.value + b.value) + d.value == a.value + (b.value + d.value);
  }

  lemma ChunkDecodes(c: string)
    requires c != [] && TwoDigitCodes(c)
    ensures DecodeFelt(ChunkFelt(c)) == Success(c)
  {
    var h := HexOfText(c);
    HexOfTextHead(c);
    MinimalHexOfValue(h);
    assert ChunkFelt(c) == HexValue(h);
    HexRoundTrip(c);
  }

  lemma {:induction false} DecodeChunkFelts(cs: seq<string>)
    requires forall i :: 0 <= i < |cs| ==> cs[i] != [] && TwoDigitCodes(cs[i])
    ensures HexArrayToString(seq(|cs|, i requires 0 <= i < |cs| => ChunkFelt(cs[i]))) == Success(Join(cs))
  {
    if cs != [] {
      var init := cs[..|cs| - 1];
      DecodeChunkFelts(init);
      var felts := seq(|cs|, i requires 0 <= i < |cs| => ChunkFelt(cs[i]));
      assert felts[..|cs| - 1] == seq(|init|, i requires 0 <= i < |init| => ChunkFelt(init[i]));
      ChunkDecodes(cs[|cs| - 1]);
    }
  }

  /** Every chunk of a text whose codes lie in 16..255 has codes in 16..255. */
  lemma ChunksKeepCodes(s: string)
    requires TwoDigitCodes(s)
    ensures NoLineTerminators(s)
    ensures forall i :: 0 <= i < |MatchChunks(s)| ==> TwoDigitCodes(MatchChunks(s)[i])
  {
    assert NoLineTerminators(s);
    ChunkPositions(s);
  }

  /** hexArrayToString(stringToFelt(s)) == s for every nonempty s whose
      character codes all lie in 16..255 (printable ASCII among them). */
  lemma FeltRoundTrip(s: string)
    requires s != [] && TwoDigitCodes(s)
    ensures StringToFelt(s).Success?
    ensures HexArrayToString(StringToFelt(s).value) == Success(s)
  {
    ChunksKeepCodes(s);
    MatchChunksLayout(s);
    var chunks := MatchChunks(s);
    DecodeChunkFelts(chunks);
    assert StringToFelt(s).value == seq(|chunks|, i requires 0 <= i < |chunks| => ChunkFelt(chunks[i]));
  }
}
