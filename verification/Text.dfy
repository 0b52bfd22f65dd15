/** Characters and strings. */
module Text {
  import opened Wrappers

  /** ASCII letters, digits, '-', '_' and '.': what stays in a file name. */
  predicate IsFileNameChar(c: char) {
    'a' <= c <= 'z' || 'A' <= c <= 'Z' || '0' <= c <= '9' || c == '-' || c == '_' || c == '.'
  }

  /** Every other character becomes an underscore. */
  function Sanitize(s: string): (r: string)
    ensures |r| == |s|
    ensures forall i :: 0 <= i < |s| ==> r[i] == if IsFileNameChar(s[i]) then s[i] else '_'
  {
    seq(|s|, i requires 0 <= i < |s| => if IsFileNameChar(s[i]) then s[i] else '_')
  }

  function Join(parts: seq<string>, separator: string): string {
    if parts == [] then ""
    else if |parts| == 1 then parts[0]
    else parts[0] + separator + Join(parts[1..], separator)
  }

  /** Bytes of the UTF-8 encoding. */
  function Utf8Width(c: char): nat {
    if c as int < 0x80 then 1 else if c as int < 0x800 then 2 else if c as int < 0x10000 then 3 else 4
  }

  function ByteLength(s: string): nat {
    if s == "" then 0 else Utf8Width(s[0]) + ByteLength(s[1..])
  }

  /** Order by code points, which is also the order of the UTF-8 bytes. */
  predicate LexLe(a: string, b: string) {
    if a == "" then true
    else if b == "" then false
    else if a[0] == b[0] then LexLe(a[1..], b[1..])
    else a[0] < b[0]
  }

  lemma {:induction false} LexTotal(a: string, b: string)
    ensures LexLe(a, b) || LexLe(b, a)
  {
    if a != "" && b != "" && a[0] == b[0] { LexTotal(a[1..], b[1..]); }
  }

  lemma {:induction false} LexTransitive(a: string, b: string, c: string)
    requires LexLe(a, b) && LexLe(b, c)
    ensures LexLe(a, c)
  {
    if a != "" && b != "" && c != "" && a[0] == b[0] && b[0] == c[0] {
      LexTransitive(a[1..], b[1..], c[1..]);
    }
  }

  lemma {:induction false} LexAntisymmetric(a: string, b: string)
    requires LexLe(a, b) && LexLe(b, a)
    ensures a == b
  {
    if a != "" && b != "" {
      assert a == [a[0]] + a[1..] && b == [b[0]] + b[1..];
      LexAntisymmetric(a[1..], b[1..]);
    }
  }

  function LowerChar(c: char): char {
    if 'A' <= c <= 'Z' then ((c as int) + 32) as char else c
  }

  /** ASCII lower case. */
  function AsciiLower(s: string): (r: string)
    ensures |r| == |s| && forall i :: 0 <= i < |s| ==> r[i] == LowerChar(s[i])
  {
    seq(|s|, i requires 0 <= i < |s| => LowerChar(s[i]))
  }

  /** The Unicode White_Space characters. */
  predicate IsWhitespace(c: char) {
    var n := c as int;
    || 9 <= n <= 13 || n == 0x20 || n == 0x85 || n == 0xA0 || n == 0x1680
    || 0x2000 <= n <= 0x200A || n == 0x2028 || n == 0x2029 || n == 0x202F || n == 0x205F || n == 0x3000
  }

  function TrimStart(s: string): string {
    if s != "" && IsWhitespace(s[0]) then TrimStart(s[1..]) else s
  }

  function TrimEnd(s: string): string {
    if s != "" && IsWhitespace(s[|s| - 1]) then TrimEnd(s[..|s| - 1]) else s
  }

  function Trim(s: string): string {
    TrimEnd(TrimStart(s))
  }

  lemma {:induction false} TrimStartShape(s: string)
    ensures TrimStart(s) == "" || !IsWhitespace(TrimStart(s)[0])
    ensures forall c :: c in TrimStart(s) ==> c in s
  {
    if s != "" && IsWhitespace(s[0]) { TrimStartShape(s[1..]); }
  }

  lemma {:induction false} TrimEndShape(s: string)
    ensures TrimEnd(s) <= s
    ensures TrimEnd(s) == "" || !IsWhitespace(TrimEnd(s)[|TrimEnd(s)| - 1])
  {
    if s != "" && IsWhitespace(s[|s| - 1]) { TrimEndShape(s[..|s| - 1]); }
  }

  /** Trimming leaves nothing of exactly the strings of whitespace. */
  lemma {:induction false} TrimBlank(s: string)
    ensures Trim(s) == "" <==> Blank(s)
  {
    TrimStartSplit(s);
    TrimStartShape(s);
    TrimEndShape(TrimStart(s));
    var r := TrimStart(s);
    if r != "" {
      assert r[0] in s;
      TrimEndKeepsFirst(r);
    }
  }

  lemma {:induction false} TrimStartSplit(s: string)
    ensures TrimStart(s) == "" ==> forall c :: c in s ==> IsWhitespace(c)
  {
    if s != "" && IsWhitespace(s[0]) {
      TrimStartSplit(s[1..]);
      assert s == [s[0]] + s[1..];
    }
  }

  lemma {:induction false} TrimEndKeepsFirst(s: string)
    requires s != "" && !IsWhitespace(s[0])
    ensures TrimEnd(s) != ""
  {
    if IsWhitespace(s[|s| - 1]) { TrimEndKeepsFirst(s[..|s| - 1]); }
  }

  /** Splits at the first occurrence of a separator. */
  function SplitFirst(s: string, separator: char): Option<(string, string)> {
    if s == "" then None
    else if s[0] == separator then Some(("", s[1..]))
    else match SplitFirst(s[1..], separator)
      case None => None
      case Some((before, after)) => Some(([s[0]] + before, after))
  }

  lemma {:induction false} SplitFirstBack(a: string, b: string, separator: char)
    requires separator !in a
    ensures SplitFirst(a + [separator] + b, separator) == Some((a, b))
  {
    var s := a + [separator] + b;
    if a == "" {
      assert s == [separator] + b;
    } else {
      assert a == [a[0]] + a[1..];
      assert s[1..] == a[1..] + [separator] + b;
      SplitFirstBack(a[1..], b, separator);
    }
  }

  lemma {:induction false} SplitFirstParts(s: string, separator: char)
    ensures SplitFirst(s, separator).None? <==> separator !in s
    ensures SplitFirst(s, separator).Some? ==>
      var (before, after) := SplitFirst(s, separator).value;
      separator !in before && s == before + [separator] + after
  {
    if s != "" {
      assert s == [s[0]] + s[1..];
      SplitFirstParts(s[1..], separator);
    }
  }

  predicate Blank(s: string) {
    forall c :: c in s ==> IsWhitespace(c)
  }

  lemma {:induction false} BlankJoin(a: string, b: string)
    requires Blank(a) && Blank(b)
    ensures Blank(a + b)
  {
    assert forall c :: c in a + b <==> c in a || c in b;
  }

  /** Trimming takes only whitespace, from both ends. */
  lemma {:induction false} TrimTakes(s: string) returns (before: string, after: string)
    ensures s == before + Trim(s) + after && Blank(before) && Blank(after)
  {
    var middle;
    before, middle := TrimStartTakes(s);
    after := TrimEndTakes(middle);
    assert before + (Trim(s) + after) == before + Trim(s) + after;
  }

  lemma {:induction false} TrimStartAt(s: string) returns (n: nat)
    ensures n <= |s| && TrimStart(s) == s[n..] && forall i :: 0 <= i < n ==> IsWhitespace(s[i])
  {
    if s != "" && IsWhitespace(s[0]) {
      var rest := s[1..];
      var m := TrimStartAt(rest);
      n := m + 1;
      assert rest[m..] == s[n..];
      assert forall i :: 1 <= i < n ==> s[i] == rest[i - 1];
    } else {
      n := 0;
    }
  }

  lemma {:induction false} TrimStartTakes(s: string) returns (before: string, rest: string)
    ensures s == before + rest && rest == TrimStart(s) && Blank(before)
  {
    var n := TrimStartAt(s);
    before, rest := s[..n], s[n..];
  }

  lemma {:induction false} TrimEndTakes(s: string) returns (after: string)
    ensures s == TrimEnd(s) + after && Blank(after)
  {
    if s != "" && IsWhitespace(s[|s| - 1]) {
      var front, last := s[..|s| - 1], s[|s| - 1];
      var inner := TrimEndTakes(front);
      after := inner + [last];
      assert s == front + [last] == TrimEnd(front) + inner + [last];
      BlankJoin(inner, [last]);
    } else {
      after := "";
    }
  }

  /** ... and all of it. */
  lemma {:induction false} TrimGives(before: string, s: string, after: string)
    requires Blank(before) && Blank(after) && s != "" && !IsWhitespace(s[0]) && !IsWhitespace(s[|s| - 1])
    ensures Trim(before + s + after) == s
  {
    assert before + s + after == before + (s + after);
    TrimStartGives(before, s + after);
    TrimEndGives(s, after);
  }

  lemma {:induction false} TrimStartGives(before: string, s: string)
    requires Blank(before) && s != "" && !IsWhitespace(s[0])
    ensures TrimStart(before + s) == s
  {
    if before == "" {
      assert before + s == s;
    } else {
      assert before[0] in before;
      assert (before + s)[1..] == before[1..] + s;
      TrimStartGives(before[1..], s);
    }
  }

  lemma {:induction false} TrimEndGives(s: string, after: string)
    requires Blank(after) && s != "" && !IsWhitespace(s[|s| - 1])
    ensures TrimEnd(s + after) == s
  {
    if after == "" {
      assert s + after == s;
    } else {
      assert after[|after| - 1] in after;
      assert (s + after)[..|s + after| - 1] == s + after[..|after| - 1];
      TrimEndGives(s, after[..|after| - 1]);
    }
  }
}
