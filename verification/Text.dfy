// The string functions of the Go library that the parsers rely on.
module Text {
  import opened Words
  import opened Options

  // unicode.IsSpace
  predicate IsSpace(c: char)
  {
    || c == ' ' || ('\t' <= c <= '\r') || c == '\U{85}' || c == '\U{A0}' || c == '\U{1680}'
    || ('\U{2000}' <= c <= '\U{200A}') || c == '\U{2028}' || c == '\U{2029}' || c == '\U{202F}'
    || c == '\U{205F}' || c == '\U{3000}'
  }

  // The ASCII characters that are white space.
  lemma {:induction false} AsciiSpaces(c: char)
    requires c as int < 128
    ensures IsSpace(c) <==> c as int in {9, 10, 11, 12, 13, 32}
  {
  }

  predicate Blank(s: string) { forall i :: 0 <= i < |s| ==> IsSpace(s[i]) }

  function TrimLeft(s: string): string
  {
    if s != [] && IsSpace(s[0]) then TrimLeft(s[1..]) else s
  }

  function TrimRight(s: string): string
  {
    if s != [] && IsSpace(s[|s| - 1]) then TrimRight(s[..|s| - 1]) else s
  }

  function TrimSpace(s: string): string { TrimRight(TrimLeft(s)) }

  // Neither end is white space.
  predicate Trimmed(s: string)
  {
    s != [] ==> !IsSpace(s[0]) && !IsSpace(s[|s| - 1])
  }

  lemma {:induction false} TrimLeftPad(pad: string, s: string)
    requires Blank(pad) && (s != [] ==> !IsSpace(s[0]))
    ensures TrimLeft(pad + s) == s
  {
    if pad == [] {
      assert pad + s == s;
    } else {
      assert (pad + s)[1..] == pad[1..] + s;
      TrimLeftPad(pad[1..], s);
    }
  }

  lemma {:induction false} TrimRightPad(s: string, pad: string)
    requires Blank(pad) && (s != [] ==> !IsSpace(s[|s| - 1]))
    ensures TrimRight(s + pad) == s
  {
    if pad == [] {
      assert s + pad == s;
    } else {
      assert (s + pad)[..|s + pad| - 1] == s + pad[..|pad| - 1];
      TrimRightPad(s, pad[..|pad| - 1]);
    }
  }

  lemma {:induction false} TrimLeftBlank(s: string)
    requires Blank(s)
    ensures TrimLeft(s) == []
  {
    if s != [] { TrimLeftBlank(s[1..]); }
  }

  lemma {:induction false} TrimPad(before: string, s: string, after: string)
    requires Blank(before) && Blank(after) && Trimmed(s)
    ensures TrimSpace(before + s + after) == s
  {
    if s == [] {
      assert Blank(before + s + after);
      TrimLeftBlank(before + s + after);
    } else {
      assert before + s + after == before + (s + after);
      TrimLeftPad(before, s + after);
      TrimRightPad(s, after);
    }
  }

  lemma {:induction false} TrimLeftIsSuffix(s: string) returns (before: string)
    ensures Blank(before) && s == before + TrimLeft(s)
    ensures TrimLeft(s) != [] ==> !IsSpace(TrimLeft(s)[0])
  {
    if s != [] && IsSpace(s[0]) {
      before := TrimLeftIsSuffix(s[1..]);
      before := [s[0]] + before;
      assert s == [s[0]] + s[1..];
    } else {
      before := [];
    }
  }

  lemma {:induction false} TrimRightIsPrefix(s: string) returns (after: string)
    ensures Blank(after) && s == TrimRight(s) + after
    ensures TrimRight(s) != [] ==> !IsSpace(TrimRight(s)[|TrimRight(s)| - 1])
  {
    if s != [] && IsSpace(s[|s| - 1]) {
      after := TrimRightIsPrefix(s[..|s| - 1]);
      after := after + [s[|s| - 1]];
      assert s == s[..|s| - 1] + [s[|s| - 1]];
    } else {
      after := [];
    }
  }

  // TrimSpace takes away white space at both ends, and all of it.
  lemma {:induction false} TrimSpaceMeans(s: string) returns (before: string, after: string)
    ensures Blank(before) && Blank(after) && Trimmed(TrimSpace(s)) && s == before + TrimSpace(s) + after
  {
    var left := TrimLeft(s);
    before := TrimLeftIsSuffix(s);
    after := TrimRightIsPrefix(left);
    if TrimSpace(s) != [] { assert TrimSpace(s)[0] == left[0]; }
    assert s == before + (TrimSpace(s) + after);
  }

  lemma {:induction false} TrimmedAway(s: string)
    ensures TrimSpace(s) == [] <==> Blank(s)
  {
    var before, after := TrimSpaceMeans(s);
    assert Blank(before + [] + after);
    if Blank(s) { TrimLeftBlank(s); }
  }

  // ---------- splitting ----------

  // strings.Index for one character; |s| if there is none.
  function Index(s: string, c: char): (k: nat)
    ensures k <= |s|
    ensures forall i :: 0 <= i < k ==> s[i] != c
    ensures k < |s| ==> s[k] == c
  {
    if s == [] then 0 else if s[0] == c then 0 else 1 + Index(s[1..], c)
  }

  lemma {:induction false} IndexAt(a: string, c: char, b: string)
    requires c !in a
    ensures Index(a + [c] + b, c) == |a|
  {
    var s := a + [c] + b;
    assert s[|a|] == c;
    assert forall i :: 0 <= i < |a| ==> s[i] == a[i] && a[i] in a;
  }

  // strings.Split by a separator of one character
  function Split(s: string, sep: char): seq<string>
    decreases |s|
  {
    var k := Index(s, sep);
    if k == |s| then [s] else [s[..k]] + Split(s[k + 1..], sep)
  }

  function Join(parts: seq<string>, sep: char): string
  {
    if parts == [] then []
    else if |parts| == 1 then parts[0]
    else parts[0] + [sep] + Join(parts[1..], sep)
  }

  lemma {:induction false} SplitFirst(part: string, sep: char, rest: string)
    requires sep !in part
    ensures Split(part + [sep] + rest, sep) == [part] + Split(rest, sep)
  {
    var s := part + [sep] + rest;
    IndexAt(part, sep, rest);
    assert s[..|part|] == part;
    assert s[|part| + 1..] == rest;
  }

  lemma {:induction false} SplitJoin(parts: seq<string>, sep: char)
    requires |parts| > 0 && forall i :: 0 <= i < |parts| ==> sep !in parts[i]
    ensures Split(Join(parts, sep), sep) == parts
  {
    if |parts| == 1 {
      var s := parts[0];
      assert forall i :: 0 <= i < |s| ==> s[i] in s;
      assert parts == [s];
    } else {
      SplitFirst(parts[0], sep, Join(parts[1..], sep));
      SplitJoin(parts[1..], sep);
      assert parts == [parts[0]] + parts[1..];
    }
  }

  // strings.LastIndex for one character; -1 if there is none.
  function LastIndex(s: string, c: char): (k: int)
    ensures -1 <= k < |s|
    ensures k >= 0 ==> s[k] == c
    ensures forall i :: k < i < |s| ==> s[i] != c
  {
    if s == [] then -1
    else if s[|s| - 1] == c then |s| - 1
    else LastIndex(s[..|s| - 1], c)
  }

  lemma {:induction false} LastIndexAt(a: string, c: char, b: string)
    requires c !in b
    ensures LastIndex(a + [c] + b, c) == |a|
  {
    if b == [] {
      assert a + [c] + b == a + [c];
    } else {
      var n := |b| - 1;
      assert (a + [c] + b)[..|a + [c] + b| - 1] == a + [c] + b[..n];
      LastIndexAt(a, c, b[..n]);
    }
  }

  // ---------- fields ----------

  // Length of the leading run without white space.
  function TokenLength(s: string): (k: nat)
    ensures k <= |s|
    ensures forall i :: 0 <= i < k ==> !IsSpace(s[i])
    ensures k < |s| ==> IsSpace(s[k])
  {
    if s == [] || IsSpace(s[0]) then 0 else 1 + TokenLength(s[1..])
  }

  // strings.Fields
  function Fields(s: string): seq<string>
    decreases |s|
  {
    if s == [] then []
    else if IsSpace(s[0]) then Fields(s[1..])
    else [s[..TokenLength(s)]] + Fields(s[TokenLength(s)..])
  }

  predicate IsToken(s: string) { s != [] && forall i :: 0 <= i < |s| ==> !IsSpace(s[i]) }

  lemma {:induction false} FieldsBlank(s: string)
    requires Blank(s)
    ensures Fields(s) == []
  {
    if s != [] { FieldsBlank(s[1..]); }
  }

  lemma {:induction false} FieldsToken(tok: string, rest: string)
    requires IsToken(tok) && (rest != [] ==> IsSpace(rest[0]))
    ensures Fields(tok + rest) == [tok] + Fields(rest)
  {
    var s := tok + rest;
    var k := TokenLength(s);
    assert forall i :: 0 <= i < |tok| ==> s[i] == tok[i];
    assert rest != [] ==> s[|tok|] == rest[0];
    assert s[..k] == tok && s[k..] == rest;
  }

  // Each token after one space.
  function Spaced(tokens: seq<string>): string
  {
    if tokens == [] then [] else " " + tokens[0] + Spaced(tokens[1..])
  }

  lemma {:induction false} FieldsSkip(s: string)
    ensures Fields(" " + s) == Fields(s)
  {
    assert (" " + s)[1..] == s;
  }

  lemma {:induction false} FieldsSpaced(tokens: seq<string>, tail: string)
    requires (forall i :: 0 <= i < |tokens| ==> IsToken(tokens[i])) && Blank(tail)
    ensures Fields(Spaced(tokens) + tail) == tokens
  {
    hide Fields, IsToken;
    if tokens == [] {
      assert Spaced(tokens) + tail == tail;
      FieldsBlank(tail);
    } else {
      var rest := Spaced(tokens[1..]) + tail;
      assert Spaced(tokens) + tail == " " + (tokens[0] + rest);
      FieldsSkip(tokens[0] + rest);
      FieldsSpaced(tokens[1..], tail);
      assert rest != [] ==> IsSpace(rest[0]) by {
        if tokens[1..] != [] { assert rest[0] == ' '; } else { assert rest == tail; }
      }
      FieldsToken(tokens[0], rest);
      assert tokens == [tokens[0]] + tokens[1..];
    }
  }

  // ---------- decimal numbers ----------

  predicate IsDigit(c: char) { '0' <= c <= '9' }

  function Digit(c: char): (d: nat)
    requires IsDigit(c)
    ensures d < 10
  {
    c as int - '0' as int
  }

  function DigitChar(d: nat): (c: char)
    requires d < 10
    ensures IsDigit(c) && Digit(c) == d
  {
    ('0' as int + d) as char
  }

  // strconv.Itoa
  function Itoa(n: nat): (s: string)
    ensures s != [] && forall i :: 0 <= i < |s| ==> IsDigit(s[i])
  {
    if n < 10 then [DigitChar(n)] else Itoa(n / 10) + [DigitChar(n % 10)]
  }

  lemma {:induction false} ItoaIsToken(n: nat)
    ensures IsToken(Itoa(n)) && Trimmed(Itoa(n))
  {
    assert forall c :: IsDigit(c) ==> !IsSpace(c);
  }

  // What strconv.ParseUint returns in base 10 for 64 bits: a value, which the
  // callers keep even when there is an error.
  datatype Parsed = Parsed(value: u64, ok: bool)

  function ParseDigits(s: string, n: u64): Parsed
  {
    if s == [] then Parsed(n, true)
    else if !IsDigit(s[0]) then Parsed(0, false)
    else if n * 10 + Digit(s[0]) >= TWO_TO_64 then Parsed(TWO_TO_64 - 1, false)
    else ParseDigits(s[1..], n * 10 + Digit(s[0]))
  }

  function ParseUint(s: string): Parsed
  {
    if s == [] then Parsed(0, false) else ParseDigits(s, 0)
  }

  lemma {:induction false} ParseDigitsItoa(n: u64, rest: string)
    ensures ParseDigits(Itoa(n) + rest, 0) == ParseDigits(rest, n)
    decreases n
  {
    var s := Itoa(n) + rest;
    if n < 10 {
      assert s[0] == DigitChar(n) && s[1..] == rest;
    } else {
      var tail := [DigitChar(n % 10)] + rest;
      assert s == Itoa(n / 10) + tail;
      ParseDigitsItoa(n / 10, tail);
      assert tail[1..] == rest;
      assert n / 10 * 10 + n % 10 == n;
    }
  }

  // Parsing a printed number gives it back, or the largest word with an error if
  // it is too large.
  lemma {:induction false} ParseUintItoa(n: nat)
    ensures ParseUint(Itoa(n)) == if n < TWO_TO_64 then Parsed(n, true) else Parsed(TWO_TO_64 - 1, false)
  {
    assert Itoa(n) + [] == Itoa(n);
    if n < TWO_TO_64 { ParseDigitsItoa(n, []); } else { ParseDigitsOverflow(n, []); }
  }

  lemma {:induction false} LastDigitOverflows(n: nat, rest: string)
    requires n / 10 < TWO_TO_64 <= n
    ensures ParseDigits([DigitChar(n % 10)] + rest, n / 10) == Parsed(TWO_TO_64 - 1, false)
  {
    assert n / 10 * 10 + n % 10 == n;
  }

  lemma {:induction false} ItoaSplit(n: nat, rest: string)
    requires n >= 10
    ensures Itoa(n) + rest == Itoa(n / 10) + ([DigitChar(n % 10)] + rest)
  {
  }

  lemma {:induction false} ParseDigitsOverflow(n: nat, rest: string)
    requires n >= TWO_TO_64
    ensures ParseDigits(Itoa(n) + rest, 0) == Parsed(TWO_TO_64 - 1, false)
    decreases n
  {
    hide Itoa, ParseDigits, DigitChar;
    ItoaSplit(n, rest);
    if n / 10 < TWO_TO_64 {
      ParseDigitsItoa(n / 10, [DigitChar(n % 10)] + rest);
      LastDigitOverflows(n, rest);
    } else {
      ParseDigitsOverflow(n / 10, [DigitChar(n % 10)] + rest);
    }
  }

  // strconv.Atoi for 64-bit int
  function Atoi(s: string): Option<int>
  {
    var negative := s != [] && s[0] == '-';
    var digits := if s != [] && (s[0] == '-' || s[0] == '+') then s[1..] else s;
    var p := ParseUint(digits);
    if !p.ok then None
    else if negative && p.value <= 0x8000_0000_0000_0000 then Some(-(p.value as int))
    else if !negative && p.value < 0x8000_0000_0000_0000 then Some(p.value)
    else None
  }

  // Numbers in the range of int, with or without a sign.
  lemma {:induction false} AtoiItoa(n: nat)
    ensures Atoi(Itoa(n)) == Atoi("+" + Itoa(n)) == if n < 0x8000_0000_0000_0000 then Some(n) else None
    ensures Atoi("-" + Itoa(n)) == if n <= 0x8000_0000_0000_0000 then Some(-(n as int)) else None
  {
    ParseUintItoa(n);
    assert IsDigit(Itoa(n)[0]);
    assert ("+" + Itoa(n))[1..] == Itoa(n) == ("-" + Itoa(n))[1..];
  }
}
