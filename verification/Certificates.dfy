/** Certificate serials and verification codes (src/certificates/certificate-serial.util.ts). */
module Certificates {
  import opened Prelude
  import opened Decimal

  predicate IsLower(c: char) { 'a' <= c <= 'z' }

  predicate IsUpperOrDigit(c: char) { 'A' <= c <= 'Z' || '0' <= c <= '9' }

  predicate IsAlphaNumeric(c: char) { IsLower(c) || IsUpperOrDigit(c) }

  function Upper(c: char): char {
    if IsLower(c) then 'A' + (c - 'a') else c
  }

  // ------------------------------------------------------------------ verification codes

  const ALPHABET := "0123456789ABCDEFGHJKMNPQRSTVWXYZ"
  const CODE_LENGTH := 12

  /** `normalizeVerificationCode`. */
  function Normalize(raw: string): (r: string)
    ensures forall c :: c in r ==> IsUpperOrDigit(c)
  {
    if raw == "" then ""
    else (if IsAlphaNumeric(raw[0]) then [Upper(raw[0])] else "") + Normalize(raw[1..])
  }

  /** `isPlausibleVerificationCode`. */
  predicate IsPlausible(raw: string) {
    |Normalize(raw)| == CODE_LENGTH && forall c :: c in Normalize(raw) ==> c in ALPHABET
  }

  /** `normalized.match(/.{1,4}/g)` joined with hyphens. */
  function Grouped(s: string): string {
    if |s| <= 4 then s else s[..4] + "-" + Grouped(s[4..])
  }

  /** `formatVerificationCode`. */
  function Format(code: string): string { Grouped(Normalize(code)) }

  predicate IsByte(b: int) { 0 <= b < 256 }

  function CodeOf(bytes: seq<int>): (code: string)
    requires forall i :: 0 <= i < |bytes| ==> IsByte(bytes[i])
    ensures |code| == |bytes|
  {
    seq(|bytes|, i requires 0 <= i < |bytes| => ALPHABET[bytes[i] % 32])
  }

  /** `generateVerificationCode`, from the twelve random bytes. */
  method GenerateCode(bytes: seq<int>) returns (code: string)
    requires |bytes| == CODE_LENGTH && forall i :: 0 <= i < |bytes| ==> IsByte(bytes[i])
    ensures code == CodeOf(bytes)
  {
    code := "";
    for i := 0 to CODE_LENGTH
      invariant code == CodeOf(bytes[..i])
    {
      code := code + [ALPHABET[bytes[i] % |ALPHABET|]];
    }
    assert bytes[..CODE_LENGTH] == bytes;
  }

  lemma AlphabetIsDistinct(i: nat, j: nat)
    requires i < j < 32
    ensures ALPHABET[i] < ALPHABET[j]
  {
  }

  /** The alphabet has the digits and the capitals but I, L, O and U. */
  lemma AlphabetExactly(c: char)
    ensures c in ALPHABET <==> IsUpperOrDigit(c) && c != 'I' && c != 'L' && c != 'O' && c != 'U'
  {
    var digits, a, j, m, p, v := "0123456789", "ABCDEFGH", "JK", "MN", "PQRST", "VWXYZ";
    assert ALPHABET == digits + a + j + m + p + v;
    Run(digits, '0', c);
    Run(a, 'A', c);
    Run(j, 'J', c);
    Run(m, 'M', c);
    Run(p, 'P', c);
    Run(v, 'V', c);
    hide ALPHABET;
  }

  lemma Run(s: string, first: char, c: char)
    requires |s| <= 26 && first as int + |s| <= 128 && forall i :: 0 <= i < |s| ==> s[i] as int == first as int + i
    ensures c in s <==> first as int <= c as int < first as int + |s|
  {
    if first as int <= c as int < first as int + |s| {
      assert s[c as int - first as int] == c;
    }
  }

  /** Letters of either case and digits count, and letters are read as capitals. */
  lemma LettersExactly(c: char, i: nat)
    ensures IsAlphaNumeric(c) <==>
              c in "0123456789" || c in "ABCDEFGHIJKLMNOPQRSTUVWXYZ" || c in "abcdefghijklmnopqrstuvwxyz"
    ensures i < 26 ==> Upper("abcdefghijklmnopqrstuvwxyz"[i]) == "ABCDEFGHIJKLMNOPQRSTUVWXYZ"[i]
    ensures c !in "abcdefghijklmnopqrstuvwxyz" ==> Upper(c) == c
  {
    Run("0123456789", '0', c);
    Run("ABCDEFGHIJKLMNOPQRSTUVWXYZ", 'A', c);
    Run("abcdefghijklmnopqrstuvwxyz", 'a', c);
  }

  /** A string is plausible exactly when its letters and digits, read as capitals, are twelve
      and none of them I, L, O or U. */
  lemma PlausibleExactly(raw: string)
    ensures IsPlausible(raw) <==>
            |Normalize(raw)| == 12 && forall c :: c in Normalize(raw) ==> c != 'I' && c != 'L' && c != 'O' && c != 'U'
  {
    forall c | c in Normalize(raw)
      ensures c in ALPHABET <==> c != 'I' && c != 'L' && c != 'O' && c != 'U'
    {
      AlphabetExactly(c);
    }
    hide ALPHABET, Normalize;
  }

  lemma AlphabetIsUpper(i: nat)
    requires i < 32
    ensures IsUpperOrDigit(ALPHABET[i])
  {
  }

  lemma {:induction false} NormalizeKeeps(s: string)
    requires forall c :: c in s ==> IsUpperOrDigit(c)
    ensures Normalize(s) == s
    decreases |s|
  {
    if s != "" {
      NormalizeKeeps(s[1..]);
      assert s[0] in s;
      assert s == [s[0]] + s[1..];
    }
  }

  lemma {:induction false} NormalizeConcat(a: string, b: string)
    ensures Normalize(a + b) == Normalize(a) + Normalize(b)
    decreases |a|
  {
    if a == "" {
      assert a + b == b;
    } else {
      assert (a + b)[1..] == a[1..] + b;
      NormalizeConcat(a[1..], b);
    }
  }

  lemma {:induction false} GroupingIsInvisible(s: string)
    requires forall c :: c in s ==> IsUpperOrDigit(c)
    ensures Normalize(Grouped(s)) == s
    decreases |s|
  {
    if |s| <= 4 {
      NormalizeKeeps(s);
    } else {
      GroupingIsInvisible(s[4..]);
      NormalizeKeeps(s[..4]);
      var tail := Grouped(s[4..]);
      assert Normalize("-" + tail) == Normalize(tail) by {
        assert ("-" + tail)[1..] == tail;
      }
      assert Grouped(s) == s[..4] + ("-" + tail);
      hide Normalize, Grouped;
      NormalizeConcat(s[..4], "-" + tail);
      assert s == s[..4] + s[4..];
    }
  }

  /** Groups of four: a hyphen stands at every fifth place and nowhere else, never at the end. */
  lemma {:induction false} GroupsOfFour(s: string)
    requires '-' !in s
    ensures forall i :: 0 <= i < |Grouped(s)| ==> (Grouped(s)[i] == '-' <==> i % 5 == 4)
    ensures Grouped(s) != "" ==> |Grouped(s)| % 5 != 0
    decreases |s|
  {
    if |s| > 4 {
      GroupsOfFour(s[4..]);
      var tail := Grouped(s[4..]);
      assert Grouped(s) == s[..4] + "-" + tail;
      assert |tail| > 0;
      forall i | 0 <= i < |Grouped(s)| ensures Grouped(s)[i] == '-' <==> i % 5 == 4 {
        if i >= 5 {
          assert Grouped(s)[i] == tail[i - 5];
        }
      }
    }
  }

  /** Formatting keeps the code, is idempotent, and shows two strings alike exactly when they
      are the same code. */
  lemma FormatIsCanonical(a: string, b: string)
    ensures Normalize(Format(a)) == Normalize(a)
    ensures Format(Format(a)) == Format(a)
    ensures Format(a) == Format(b) <==> Normalize(a) == Normalize(b)
    ensures IsPlausible(Format(a)) <==> IsPlausible(a)
  {
    GroupingIsInvisible(Normalize(a));
    GroupingIsInvisible(Normalize(b));
  }

  /** `raw` is `code` with letters in any case and any separators in between. */
  predicate Spells(raw: string, code: string) {
    if raw == "" then code == ""
    else if !IsAlphaNumeric(raw[0]) then Spells(raw[1..], code)
    else code != "" && Upper(raw[0]) == code[0] && Spells(raw[1..], code[1..])
  }

  lemma {:induction false} SpellsExactly(raw: string, code: string)
    ensures Spells(raw, code) <==> Normalize(raw) == code
    decreases |raw|
  {
    if raw != "" {
      if IsAlphaNumeric(raw[0]) {
        if code != "" {
          SpellsExactly(raw[1..], code[1..]);
          assert code == [code[0]] + code[1..];
          assert Normalize(raw)[1..] == Normalize(raw[1..]);
        }
      } else {
        SpellsExactly(raw[1..], code);
      }
    }
  }

  /** A generated code stays plausible, and the same code, in any case and grouping. */
  lemma GeneratedIsPlausible(bytes: seq<int>, raw: string)
    requires |bytes| == CODE_LENGTH && forall i :: 0 <= i < |bytes| ==> IsByte(bytes[i])
    requires Spells(raw, CodeOf(bytes))
    ensures IsPlausible(raw) && Normalize(raw) == CodeOf(bytes)
    ensures IsPlausible(Format(raw)) && Format(raw) == Format(CodeOf(bytes))
  {
    var code := CodeOf(bytes);
    SpellsExactly(raw, code);
    forall i | 0 <= i < |code| ensures IsUpperOrDigit(code[i]) && code[i] in ALPHABET {
      AlphabetIsUpper(bytes[i] % 32);
    }
    assert forall c :: c in code ==> IsUpperOrDigit(c) && c in ALPHABET;
    NormalizeKeeps(code);
    FormatIsCanonical(raw, code);
  }

  lemma Places(alphabet: string, code: string) returns (places: seq<int>)
    requires forall c :: c in code ==> c in alphabet
    ensures |places| == |code|
    ensures forall i :: 0 <= i < |code| ==> 0 <= places[i] < |alphabet| && alphabet[places[i]] == code[i]
  {
    places := seq(|code|, i requires 0 <= i < |code| => PlaceIn(alphabet, code[i]));
  }

  lemma ThirtyTwoLetters()
    ensures |ALPHABET| == 32
  {
  }

  lemma CodeAt(bytes: seq<int>, code: string)
    requires |bytes| == |code| && forall i :: 0 <= i < |bytes| ==> IsByte(bytes[i])
    requires forall i :: 0 <= i < |bytes| ==> ALPHABET[bytes[i] % 32] == code[i]
    ensures CodeOf(bytes) == code
  {
  }

  /** A plausible string is a code that some bytes generate. */
  lemma PlausibleIsGenerated(raw: string) returns (bytes: seq<int>)
    requires IsPlausible(raw)
    ensures |bytes| == CODE_LENGTH && forall i :: 0 <= i < |bytes| ==> IsByte(bytes[i])
    ensures CodeOf(bytes) == Normalize(raw)
  {
    ThirtyTwoLetters();
    hide ALPHABET, Normalize;
    bytes := Places(ALPHABET, Normalize(raw));
    CodeAt(bytes, Normalize(raw));
  }

  function PlaceIn(s: string, c: char): (i: nat)
    requires c in s
    ensures i < |s| && s[i] == c
  {
    if s[0] == c then 0 else 1 + PlaceIn(s[1..], c)
  }

  /** Two draws give the same code exactly when their bytes agree modulo 32: five bits each. */
  lemma SameCodeExactly(a: seq<int>, b: seq<int>)
    requires |a| == |b| && forall i :: 0 <= i < |a| ==> IsByte(a[i]) && IsByte(b[i])
    ensures CodeOf(a) == CodeOf(b) <==> forall i :: 0 <= i < |a| ==> a[i] % 32 == b[i] % 32
  {
    hide IsByte;
    if CodeOf(a) == CodeOf(b) {
      forall i | 0 <= i < |a| ensures a[i] % 32 == b[i] % 32 {
        assert CodeOf(a)[i] == CodeOf(b)[i];
        var x, y := a[i] % 32, b[i] % 32;
        if x < y {
          AlphabetIsDistinct(x, y);
        } else if y < x {
          AlphabetIsDistinct(y, x);
        }
      }
    }
  }

  // ------------------------------------------------------------------ serials

  /** `.replace(/[^A-Za-z0-9\s]/g, '')`. */
  function Kept(s: string): string {
    if s == "" then ""
    else (if IsAlphaNumeric(s[0]) || IsWhiteSpace(s[0]) then [s[0]] else "") + Kept(s[1..])
  }

  /** `.split(/\s+/).filter((word) => word.length > 0)`. */
  function Words(s: string): (words: seq<string>)
    ensures forall i :: 0 <= i < |words| ==> words[i] != ""
    decreases |s|
  {
    if s == "" then []
    else if IsWhiteSpace(s[0]) then Words(s[1..])
    else [Word(s)] + Words(s[|Word(s)|..])
  }

  function Word(s: string): (w: string)
    ensures w <= s
    ensures s != "" && !IsWhiteSpace(s[0]) ==> w != "" && w[0] == s[0]
  {
    if s == "" || IsWhiteSpace(s[0]) then "" else [s[0]] + Word(s[1..])
  }

  function Initials(words: seq<string>): string
    requires forall i :: 0 <= i < |words| ==> words[i] != ""
  {
    if words == [] then "" else [Upper(words[0][0])] + Initials(words[1..])
  }

  function Take(s: string, n: nat): string { if |s| <= n then s else s[..n] }

  /** `academySerialPrefix`, from the name in compatibility decomposition. */
  function SerialPrefix(name: string, slug: string): string {
    var initials := Take(Initials(Words(Kept(name))), 4);
    var prefix := if |initials| < 2 then Take(Normalize(slug), 3) else initials;
    if |prefix| < 2 then "AT" else prefix
  }

  /** The initials read off the name in one scan: a word's first letter or digit, punctuation
      neither counting nor ending a word. */
  function Scan(name: string, inWord: bool): string {
    if name == "" then ""
    else if IsAlphaNumeric(name[0]) then (if inWord then "" else [Upper(name[0])]) + Scan(name[1..], true)
    else Scan(name[1..], inWord && !IsWhiteSpace(name[0]))
  }

  function Rest(s: string): string { s[|Word(s)|..] }

  lemma {:induction false} InitialsAreScanned(name: string)
    ensures Initials(Words(Kept(name))) == Scan(name, false)
    ensures Initials(Words(Rest(Kept(name)))) == Scan(name, true)
    decreases |name|
  {
    if name != "" {
      InitialsAreScanned(name[1..]);
      var c, rest := name[0], Kept(name[1..]);
      if IsAlphaNumeric(c) {
        WordGoesOn(c, rest);
      } else if IsWhiteSpace(c) {
        assert ([c] + rest)[1..] == rest;
        assert ([c] + rest)[0..] == [c] + rest;
      } else {
        assert "" + rest == rest;
      }
      hide Word, Words, Rest;
    }
  }

  lemma WordGoesOn(c: char, rest: string)
    requires IsAlphaNumeric(c)
    ensures Rest([c] + rest) == Rest(rest)
    ensures Words([c] + rest) != [] && Words([c] + rest)[0] != "" && Words([c] + rest)[0][0] == c
    ensures Words([c] + rest)[1..] == Words(Rest(rest))
  {
    var s := [c] + rest;
    assert s[1..] == rest;
    assert Word(s) == [c] + Word(rest);
    assert s[|Word(s)|..] == rest[|Word(rest)|..];
  }

  lemma {:induction false} ScanIsClean(name: string, inWord: bool)
    ensures forall c :: c in Scan(name, inWord) ==> IsUpperOrDigit(c)
    decreases |name|
  {
    if name != "" {
      ScanIsClean(name[1..], true);
      ScanIsClean(name[1..], inWord && !IsWhiteSpace(name[0]));
    }
  }

  /** A prefix is the academy's initials when there are two, else the slug's first three, else
      `AT`: two to four letters and digits, never a hyphen. */
  lemma PrefixIsClean(name: string, slug: string)
    ensures var prefix := SerialPrefix(name, slug);
            && 2 <= |prefix| <= 4
            && (forall c :: c in prefix ==> IsUpperOrDigit(c))
            && '-' !in prefix
            && (|Scan(name, false)| >= 2 ==> prefix == Take(Scan(name, false), 4))
            && (|Scan(name, false)| < 2 && |Normalize(slug)| >= 2 ==> prefix == Take(Normalize(slug), 3))
            && (|Scan(name, false)| < 2 && |Normalize(slug)| < 2 ==> prefix == "AT")
  {
    InitialsAreScanned(name);
    ScanIsClean(name, false);
    hide Scan, Normalize, Kept, Words;
  }

  /** `academySerialPrefix`, reassigning `prefix` as each source of letters falls short. */
  method AcademySerialPrefix(name: string, slug: string) returns (prefix: string)
    ensures prefix == if |Scan(name, false)| >= 2 then Take(Scan(name, false), 4)
                      else if |Normalize(slug)| >= 2 then Take(Normalize(slug), 3) else "AT"
  {
    InitialsAreScanned(name);
    prefix := Take(Initials(Words(Kept(name))), 4);
    if |prefix| < 2 {
      prefix := Take(Normalize(slug), 3);
    }
    if |prefix| < 2 {
      prefix := "AT";
    }
  }

  /** `formatSerial`. */
  function FormatSerial(prefix: string, year: nat, value: nat): string {
    prefix + "-" + ToDecimal(year) + "-" + Pad(value, 6)
  }

  /** A serial splits back into its prefix, year and counter, also past six digits. */
  lemma SerialRoundTrip(prefix: string, year: nat, value: nat)
    requires '-' !in prefix
    ensures var parts := Split(FormatSerial(prefix, year, value));
            && |parts| == 3 && parts[0] == prefix
            && AllDigits(parts[1]) && FromDecimal(parts[1]) == year && parts[1] != "" && (parts[1] == "0" || parts[1][0] != '0')
            && AllDigits(parts[2]) && FromDecimal(parts[2]) == value
            && |parts[2]| >= 6 && (|parts[2]| > 6 ==> parts[2][0] != '0')
  {
    hide ToDecimal, Pad, FromDecimal, Split;
    var y, v := ToDecimal(year), Pad(value, 6);
    DecimalDigits(year);
    PadRoundTrip(value, 6);
    PadExactly(year, 0);
    PadExactly(value, 6);
    NoHyphen(y);
    NoHyphen(v);
    hide AllDigits;
    SplitWhole(v);
    SplitAt(y, v);
    SplitAt(prefix, y + "-" + v);
    assert FormatSerial(prefix, year, value) == prefix + "-" + (y + "-" + v);
    assert Split(FormatSerial(prefix, year, value)) == [prefix, y, v];
  }

  /** Serials are unique: different prefix, year or counter, different serial. */
  lemma SerialInjective(
    name: string, slug: string, year: nat, value: nat, name': string, slug': string, year': nat, value': nat)
    requires FormatSerial(SerialPrefix(name, slug), year, value) == FormatSerial(SerialPrefix(name', slug'), year', value')
    ensures SerialPrefix(name, slug) == SerialPrefix(name', slug') && year == year' && value == value'
  {
    PrefixIsClean(name, slug);
    PrefixIsClean(name', slug');
    hide SerialPrefix, FormatSerial, Split, FromDecimal;
    SerialRoundTrip(SerialPrefix(name, slug), year, value);
    SerialRoundTrip(SerialPrefix(name', slug'), year', value');
  }
}
