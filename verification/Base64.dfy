/**
 * Base64 (section 4 of RFC 4648) as `atob` decodes it, and the URL-safe variant without
 * padding (section 5 of RFC 4648) in which a JSON Web Token carries its payload.
 */
module Base64 {
  import opened Optional

  type Byte = x: int | 0 <= x < 256

  type Sextet = x: int | 0 <= x < 64

  // ---------- bytes and six-bit groups ----------

  // three bytes x, y, z make the groups High(x), Mid(x, y), Low(y, z), Last(z)
  function High(x: Byte): Sextet { x as int / 4 }
  function Mid(x: Byte, y: Byte): Sextet { x as int % 4 * 16 + y as int / 16 }
  function Low(y: Byte, z: Byte): Sextet { y as int % 16 * 4 + z as int / 64 }
  function Last(z: Byte): Sextet { z as int % 64 }

  // four groups a, b, c, d make the bytes First(a, b), Second(b, c), Third(c, d)
  function First(a: Sextet, b: Sextet): Byte { a as int * 4 + b as int / 16 }
  function Second(b: Sextet, c: Sextet): Byte { b as int % 16 * 16 + c as int / 4 }
  function Third(c: Sextet, d: Sextet): Byte { c as int % 4 * 64 + d as int }

  lemma BytesRegrouped(x: Byte, y: Byte, z: Byte)
    ensures First(High(x), Mid(x, y)) == x
    ensures Second(Mid(x, y), Low(y, z)) == y
    ensures Third(Low(y, z), Last(z)) == z
    ensures Mid(x, 0) % 16 == 0 && Low(y, 0) % 4 == 0
  {
  }

  lemma GroupsRegrouped(a: Sextet, b: Sextet, c: Sextet, d: Sextet)
    ensures High(First(a, b)) == a
    ensures Mid(First(a, b), Second(b, c)) == b
    ensures Low(Second(b, c), Third(c, d)) == c
    ensures Last(Third(c, d)) == d
    ensures Mid(First(a, b), 0) == b <==> b % 16 == 0
    ensures Low(Second(b, c), 0) == c <==> c % 4 == 0
  {
  }

  /** The six-bit groups of a byte string; unused bits of the last group are zero. */
  function Sextets(b: seq<Byte>): seq<Sextet> {
    if |b| == 0 then []
    else if |b| == 1 then [High(b[0]), Mid(b[0], 0)]
    else if |b| == 2 then [High(b[0]), Mid(b[0], b[1]), Low(b[1], 0)]
    else [High(b[0]), Mid(b[0], b[1]), Low(b[1], b[2]), Last(b[2])] + Sextets(b[3..])
  }

  /** The bytes spelled by six-bit groups; bits that do not fill a byte are dropped. */
  function BytesOf(s: seq<Sextet>): seq<Byte>
    requires |s| % 4 != 1
  {
    if |s| == 0 then []
    else if |s| == 2 then [First(s[0], s[1])]
    else if |s| == 3 then [First(s[0], s[1]), Second(s[1], s[2])]
    else [First(s[0], s[1]), Second(s[1], s[2]), Third(s[2], s[3])] + BytesOf(s[4..])
  }

  /** No bit of the last group is dropped. */
  predicate Canonical(s: seq<Sextet>) {
    && |s| % 4 != 1
    && (|s| % 4 == 2 ==> s[|s| - 1] % 16 == 0)
    && (|s| % 4 == 3 ==> s[|s| - 1] % 4 == 0)
  }

  lemma SextetsOfMore(x: Byte, y: Byte, z: Byte, b: seq<Byte>)
    ensures Sextets([x, y, z] + b) == [High(x), Mid(x, y), Low(y, z), Last(z)] + Sextets(b)
  {
    assert ([x, y, z] + b)[3..] == b;
  }

  lemma BytesOfMore(g: seq<Sextet>, s: seq<Sextet>)
    requires |g| == 4 && |s| % 4 != 1
    ensures |g + s| % 4 != 1
    ensures BytesOf(g + s) == [First(g[0], g[1]), Second(g[1], g[2]), Third(g[2], g[3])] + BytesOf(s)
  {
    assert (g + s)[4..] == s;
  }

  lemma {:induction false} BytesOfSextets(b: seq<Byte>)
    ensures Canonical(Sextets(b)) && BytesOf(Sextets(b)) == b
  {
    hide High, Mid, Low, Last, First, Second, Third;
    assert |b| > 2 ==> b == [b[0], b[1], b[2]] + b[3..];
    if |b| == 1 {
      BytesRegrouped(b[0], 0, 0);
    } else if |b| == 2 {
      BytesRegrouped(b[0], b[1], 0);
    } else if |b| > 2 {
      BytesOfSextets(b[3..]);
      TripleRegrouped(b[0], b[1], b[2], b[3..]);
    }
  }

  lemma TripleRegrouped(x: Byte, y: Byte, z: Byte, b: seq<Byte>)
    requires Canonical(Sextets(b)) && BytesOf(Sextets(b)) == b
    ensures Canonical(Sextets([x, y, z] + b)) && BytesOf(Sextets([x, y, z] + b)) == [x, y, z] + b
  {
    hide Sextets, BytesOf, High, Mid, Low, Last, First, Second, Third;
    BytesRegrouped(x, y, z);
    SextetsOfMore(x, y, z, b);
    BytesOfMore([High(x), Mid(x, y), Low(y, z), Last(z)], Sextets(b));
  }

  /** Decoding loses nothing exactly when no set bit is dropped. */
  lemma {:induction false} SextetsOfBytes(s: seq<Sextet>)
    requires |s| % 4 != 1
    ensures Sextets(BytesOf(s)) == s <==> Canonical(s)
  {
    hide High, Mid, Low, Last, First, Second, Third;
    if |s| == 2 {
      GroupsRegrouped(s[0], s[1], 0, 0);
    } else if |s| == 3 {
      GroupsRegrouped(s[0], s[1], s[2], 0);
    } else if |s| > 3 {
      SextetsOfBytes(s[4..]);
      assert s == s[..4] + s[4..];
      QuartetRegrouped(s[..4], s[4..]);
    }
  }

  lemma QuartetRegrouped(g: seq<Sextet>, s: seq<Sextet>)
    requires |g| == 4 && |s| % 4 != 1
    requires Sextets(BytesOf(s)) == s <==> Canonical(s)
    ensures |g + s| % 4 != 1 && (Sextets(BytesOf(g + s)) == g + s <==> Canonical(g + s))
  {
    hide Sextets, BytesOf, High, Mid, Low, Last, First, Second, Third;
    BytesOfMore(g, s);
    SextetsOfMore(First(g[0], g[1]), Second(g[1], g[2]), Third(g[2], g[3]), BytesOf(s));
    GroupsRegrouped(g[0], g[1], g[2], g[3]);
    assert g == [g[0], g[1], g[2], g[3]];
    var again := Sextets(BytesOf(s));
    assert Sextets(BytesOf(g + s)) == g + again;
    assert (g + again)[4..] == again && (g + s)[4..] == s;
    assert |s| > 0 ==> (g + s)[|g + s| - 1] == s[|s| - 1];
  }

  // ---------- alphabets ----------

  function StandardChar(v: Sextet): char {
    if v < 26 then ('A' as int + v) as char
    else if v < 52 then ('a' as int + v - 26) as char
    else if v < 62 then ('0' as int + v - 52) as char
    else if v == 62 then '+'
    else '/'
  }

  function UrlChar(v: Sextet): char {
    if v == 62 then '-' else if v == 63 then '_' else StandardChar(v)
  }

  function ValueOf(c: char): Option<Sextet> {
    if 'A' <= c <= 'Z' then Some(c as int - 'A' as int)
    else if 'a' <= c <= 'z' then Some(26 + c as int - 'a' as int)
    else if '0' <= c <= '9' then Some(52 + c as int - '0' as int)
    else if c == '+' then Some(62)
    else if c == '/' then Some(63)
    else None
  }

  function Spell(s: seq<Sextet>): (text: string)
    ensures |text| == |s| && forall i :: 0 <= i < |s| ==> text[i] == StandardChar(s[i])
  {
    seq(|s|, i requires 0 <= i < |s| => StandardChar(s[i]))
  }

  function SpellUrl(s: seq<Sextet>): (text: string)
    ensures |text| == |s| && forall i :: 0 <= i < |s| ==> text[i] == UrlChar(s[i])
  {
    seq(|s|, i requires 0 <= i < |s| => UrlChar(s[i]))
  }

  predicate AllInAlphabet(text: string) {
    forall i :: 0 <= i < |text| ==> ValueOf(text[i]).Some?
  }

  function ReadText(text: string): (s: seq<Sextet>)
    requires AllInAlphabet(text)
    ensures |s| == |text| && forall i :: 0 <= i < |s| ==> Some(s[i]) == ValueOf(text[i])
  {
    seq(|text|, i requires 0 <= i < |text| => ValueOf(text[i]).value)
  }

  lemma CharValue(v: Sextet)
    ensures ValueOf(StandardChar(v)) == Some(v)
    ensures StandardChar(v) != '='
    ensures !IsSpace(StandardChar(v))
  {
  }

  lemma ReadSpelled(s: seq<Sextet>)
    ensures AllInAlphabet(Spell(s)) && ReadText(Spell(s)) == s
  {
    forall i | 0 <= i < |s| ensures ValueOf(Spell(s)[i]) == Some(s[i]) {
      CharValue(s[i]);
    }
  }

  // ---------- atob ----------

  predicate IsSpace(c: char) {
    c == ' ' || c == '\t' || c == '\n' || c == '\r' || c == 12 as char
  }

  function WithoutSpace(text: string): string {
    if text == "" then ""
    else (if IsSpace(text[0]) then "" else [text[0]]) + WithoutSpace(text[1..])
  }

  /** Removes one or two trailing padding characters from a text of a whole number of quartets. */
  function WithoutPadding(text: string): string {
    var n := |text|;
    if n % 4 != 0 || n == 0 || text[n - 1] != '=' then text
    else if text[n - 2] == '=' then text[..n - 2]
    else text[..n - 1]
  }

  /** `None` is the exception that `atob` throws on a text that is not base64. */
  function Atob(text: string): Option<seq<Byte>> {
    var data := WithoutPadding(WithoutSpace(text));
    if |data| % 4 == 1 || !AllInAlphabet(data) then None
    else Some(BytesOf(ReadText(data)))
  }

  lemma {:induction false} NoSpaceToRemove(text: string)
    requires forall i :: 0 <= i < |text| ==> !IsSpace(text[i])
    ensures WithoutSpace(text) == text
  {
    if text != "" {
      NoSpaceToRemove(text[1..]);
    }
  }

  lemma {:induction false} WithoutSpaceConcat(a: string, b: string)
    ensures WithoutSpace(a + b) == WithoutSpace(a) + WithoutSpace(b)
  {
    hide IsSpace;
    if a == "" {
      assert a + b == b;
    } else {
      WithoutSpaceConcat(a[1..], b);
      assert (a + b)[1..] == a[1..] + b && (a + b)[0] == a[0];
      var first := if IsSpace(a[0]) then "" else [a[0]];
      assert first + (WithoutSpace(a[1..]) + WithoutSpace(b)) == (first + WithoutSpace(a[1..])) + WithoutSpace(b);
    }
  }

  /** White space does not matter anywhere in the text. */
  lemma AtobIgnoresSpace(a: string, c: char, b: string)
    requires c in {' ', '\t', '\n', '\r', 12 as char}
    ensures Atob(a + [c] + b) == Atob(a + b)
  {
    WithoutSpaceConcat(a + [c], b);
    WithoutSpaceConcat(a, [c]);
    WithoutSpaceConcat(a, b);
    assert [c][1..] == "" && WithoutSpace([c]) == "";
    assert WithoutSpace(a) + "" == WithoutSpace(a);
  }

  // ---------- the token's payload ----------

  /** The unpadded URL-safe encoding. */
  function EncodeUrl(b: seq<Byte>): string {
    SpellUrl(Sextets(b))
  }

  function ReplaceAll(text: string, from: char, to: char): (r: string)
    ensures |r| == |text|
    ensures forall i :: 0 <= i < |text| ==> r[i] == if text[i] == from then to else text[i]
  {
    seq(|text|, i requires 0 <= i < |text| => if text[i] == from then to else text[i])
  }

  function ToStandard(text: string): string {
    ReplaceAll(ReplaceAll(text, '-', '+'), '_', '/')
  }

  /** The number of padding characters the decoder appends. */
  function PaddingFor(n: nat): nat {
    (4 - n % 4) % 4
  }

  /** Padding reaches the least multiple of four that is not below the length. */
  lemma PaddingIsLeast(n: nat, m: nat)
    ensures (n + PaddingFor(n)) % 4 == 0
    ensures m % 4 == 0 && m >= n ==> n + PaddingFor(n) <= m
  {
  }

  function Pad(text: string): string {
    text + seq(PaddingFor(|text|), _ => '=')
  }

  /** The decode path of one token part: swap the alphabet, pad, decode. */
  function DecodePart(part: string): Option<seq<Byte>> {
    Atob(Pad(ToStandard(part)))
  }

  /** A part without padding characters or white space of its own. */
  predicate Plain(part: string) {
    forall i :: 0 <= i < |part| ==> part[i] != '=' && !IsSpace(part[i])
  }

  /** Letters of either alphabet: the decoder accepts a mixture. */
  predicate Readable(part: string) {
    AllInAlphabet(ToStandard(part))
  }

  /** Padding a plain text and stripping it again gives the text back, unless one letter is over. */
  lemma PadThenStrip(text: string)
    requires Plain(text)
    ensures var data := WithoutPadding(WithoutSpace(Pad(text)));
            if |text| % 4 == 1 then |data| % 4 != 1 && !AllInAlphabet(data) else data == text
  {
    hide AllInAlphabet;
    var n, padded := |text|, Pad(text);
    PadText(text);
    NoSpaceToRemove(padded);
    if n % 4 == 1 {
      var data := WithoutPadding(padded);
      assert |data| == n + 1 && data[n] == '=';
      NotInAlphabet(data, n);
    }
  }

  lemma PadText(text: string)
    ensures Pad(text) == text + match |text| % 4 case 1 => "===" case 2 => "==" case 3 => "=" case _ => ""
  {
    var n := |text| % 4;
    if n == 0 {
      assert Pad(text) == text;
    } else if n == 1 {
      assert Pad(text) == text + "===";
    } else if n == 2 {
      assert Pad(text) == text + "==";
    } else {
      assert Pad(text) == text + "=";
    }
  }

  lemma NotInAlphabet(text: string, i: nat)
    requires i < |text| && text[i] == '='
    ensures !AllInAlphabet(text)
  {
  }

  /**
   * Which plain parts decode: exactly those of readable letters whose length is not one
   * more than a multiple of four.
   */
  lemma PartDecodesIff(part: string)
    requires Plain(part)
    ensures DecodePart(part).Some? <==> Readable(part) && |part| % 4 != 1
    ensures DecodePart(part).Some? ==> DecodePart(part).value == BytesOf(ReadText(ToStandard(part)))
  {
    assert Plain(ToStandard(part));
    PadThenStrip(ToStandard(part));
  }

  lemma EncodedIsPlain(b: seq<Byte>)
    ensures Plain(EncodeUrl(b)) && ToStandard(EncodeUrl(b)) == Spell(Sextets(b))
    ensures forall i :: 0 <= i < |EncodeUrl(b)| ==> EncodeUrl(b)[i] != '.'
  {
    var s := Sextets(b);
    forall i | 0 <= i < |s|
      ensures !IsSpace(UrlChar(s[i])) && UrlChar(s[i]) != '=' && UrlChar(s[i]) != '.'
      ensures ToStandard(EncodeUrl(b))[i] == StandardChar(s[i])
    {
      CharValue(s[i]);
    }
  }

  /** Decoding recovers every byte string from its unpadded URL-safe encoding. */
  lemma DecodeEncoded(b: seq<Byte>)
    ensures DecodePart(EncodeUrl(b)) == Some(b)
  {
    EncodedIsPlain(b);
    BytesOfSextets(b);
    ReadSpelled(Sextets(b));
    PartDecodesIff(EncodeUrl(b));
  }

  /**
   * The other way round: a plain part that decodes is the encoding of the result exactly
   * when it uses the URL-safe letters and leaves the unused bits zero.
   */
  lemma EncodeDecodedIff(part: string)
    requires Plain(part) && Readable(part) && |part| % 4 != 1
    ensures DecodePart(part).Some?
    ensures EncodeUrl(DecodePart(part).value) == part
            <==> Canonical(ReadText(ToStandard(part)))
                 && forall i :: 0 <= i < |part| ==> part[i] != '+' && part[i] != '/'
  {
    hide BytesOf, Sextets, Canonical, DecodePart, IsSpace;
    PartDecodesIff(part);
    var s := ReadText(ToStandard(part));
    SextetsOfBytes(s);
    forall i | 0 <= i < |part|
      ensures UrlChar(s[i]) == part[i] <==> part[i] != '+' && part[i] != '/'
    {
    }
    var again := EncodeUrl(DecodePart(part).value);
    if again == part {
      EncodedIsPlain(BytesOf(s));
      BytesOfSextets(BytesOf(s));
      ReadSpelled(Sextets(BytesOf(s)));
      assert ReadText(ToStandard(part)) == Sextets(BytesOf(s));
    }
  }
}
