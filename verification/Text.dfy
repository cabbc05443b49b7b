/** The string operations the command line relies on: trimming, splitting, reading a number. */
module Text {
  import opened Lists

  const USIZE_MAX: nat := 0xFFFF_FFFF_FFFF_FFFF

  /** The characters with the Unicode property White_Space. */
  predicate IsWhitespace(c: char) {
    || '\t' <= c <= '\r' || c == ' ' || c == '\U{0085}' || c == '\U{00A0}' || c == '\U{1680}'
    || '\U{2000}' <= c <= '\U{200A}' || '\U{2028}' <= c <= '\U{2029}'
    || c == '\U{202F}' || c == '\U{205F}' || c == '\U{3000}'
  }

  ghost predicate Blank(s: string) {
    forall c :: c in s ==> IsWhitespace(c)
  }

  function TrimStart(s: string): string {
    if s != "" && IsWhitespace(s[0]) then TrimStart(s[1..]) else s
  }

  function TrimEnd(s: string): string {
    if s != "" && IsWhitespace(s[|s| - 1]) then TrimEnd(s[..|s| - 1]) else s
  }

  function Trim(s: string): string {
    TrimEnd(TrimStart(s))
  }

  lemma {:induction false} TrimStartShape(s: string) returns (lead: string)
    ensures s == lead + TrimStart(s) && Blank(lead)
    ensures TrimStart(s) != "" ==> !IsWhitespace(TrimStart(s)[0])
  {
    if s != "" && IsWhitespace(s[0]) {
      var rest := TrimStartShape(s[1..]);
      lead := [s[0]] + rest;
      assert s == [s[0]] + s[1..];
    } else {
      lead := "";
    }
  }

  lemma {:induction false} TrimEndShape(s: string) returns (tail: string)
    ensures s == TrimEnd(s) + tail && Blank(tail)
    ensures TrimEnd(s) != "" ==> !IsWhitespace(TrimEnd(s)[|TrimEnd(s)| - 1])
  {
    if s != "" && IsWhitespace(s[|s| - 1]) {
      var rest := TrimEndShape(s[..|s| - 1]);
      tail := rest + [s[|s| - 1]];
      assert s == s[..|s| - 1] + [s[|s| - 1]];
    } else {
      tail := "";
    }
  }

  lemma {:induction false} TrimStartOver(x: string, c: char, y: string)
    requires !IsWhitespace(c)
    ensures TrimStart(x + [c] + y) == TrimStart(x) + [c] + y
  {
    var s := x + [c] + y;
    if x != "" {
      assert s[1..] == x[1..] + [c] + y;
      if IsWhitespace(x[0]) { TrimStartOver(x[1..], c, y); }
    }
  }

  lemma {:induction false} TrimEndOver(x: string, c: char, y: string)
    requires !IsWhitespace(c)
    ensures TrimEnd(x + [c] + y) == x + [c] + TrimEnd(y)
  {
    var s := x + [c] + y;
    if y != "" {
      assert s[..|s| - 1] == x + [c] + y[..|y| - 1];
      if IsWhitespace(y[|y| - 1]) { TrimEndOver(x, c, y[..|y| - 1]); }
    } else {
      assert s[|s| - 1] == c;
    }
  }

  lemma {:induction false} TrimStartBlank(lead: string, s: string)
    requires Blank(lead)
    ensures TrimStart(lead + s) == TrimStart(s)
  {
    if lead == "" {
      assert lead + s == s;
    } else {
      assert (lead + s)[1..] == lead[1..] + s;
      assert lead[0] in lead;
      TrimStartBlank(lead[1..], s);
    }
  }

  lemma {:induction false} TrimEndBlank(s: string, tail: string)
    requires Blank(tail)
    ensures TrimEnd(s + tail) == TrimEnd(s)
  {
    if tail == "" {
      assert s + tail == s;
    } else {
      assert (s + tail)[..|s + tail| - 1] == s + tail[..|tail| - 1];
      assert tail[|tail| - 1] in tail;
      TrimEndBlank(s, tail[..|tail| - 1]);
    }
  }

  lemma BlankTrims(s: string)
    requires Blank(s)
    ensures TrimStart(s) == "" && TrimEnd(s) == ""
  {
    TrimStartBlank(s, "");
    TrimEndBlank("", s);
    assert s + "" == s && "" + s == s;
  }

  /** Padding on either side does not change what is left after trimming. */
  lemma TrimIgnoresPadding(lead: string, s: string, tail: string)
    requires Blank(lead) && Blank(tail)
    ensures Trim(lead + s + tail) == Trim(s)
  {
    hide TrimStart, TrimEnd;
    assert lead + s + tail == lead + (s + tail);
    TrimStartBlank(lead, s + tail);
    var l := TrimStartShape(s);
    var core := TrimStart(s);
    if core == "" {
      assert s == l;
      TrimStartBlank(s, tail);
      BlankTrims(tail);
      BlankTrims("");
    } else {
      assert s + tail == l + [core[0]] + (core[1..] + tail);
      TrimStartOver(l, core[0], core[1..] + tail);
      BlankTrims(l);
      assert TrimStart(s + tail) == core + tail;
      TrimEndBlank(core, tail);
    }
  }

  /** A string is its trimmed core between two runs of white space, and the core starts and
      ends with something visible. */
  lemma TrimShape(s: string) returns (lead: string, tail: string)
    ensures s == lead + Trim(s) + tail && Blank(lead) && Blank(tail)
    ensures Trim(s) != "" ==> !IsWhitespace(Trim(s)[0]) && !IsWhitespace(Trim(s)[|Trim(s)| - 1])
  {
    lead := TrimStartShape(s);
    tail := TrimEndShape(TrimStart(s));
  }

  /** Cutting a string at every `separator`; the pieces do not contain it. */
  function Split(s: string, separator: char): (fields: seq<string>)
    ensures fields != []
  {
    if s == "" then [""]
    else
      var rest := Split(s[1..], separator);
      if s[0] == separator then [""] + rest else [[s[0]] + rest[0]] + rest[1..]
  }

  function Join(fields: seq<string>, separator: char): string
    requires fields != []
  {
    if |fields| == 1 then fields[0] else fields[0] + [separator] + Join(fields[1..], separator)
  }

  ghost predicate Separate(fields: seq<string>, separator: char) {
    fields != [] && forall i :: 0 <= i < |fields| ==> separator !in fields[i]
  }

  lemma {:induction false} JoinSplit(s: string, separator: char)
    ensures Separate(Split(s, separator), separator)
    ensures Join(Split(s, separator), separator) == s
  {
    if s != "" {
      var rest := Split(s[1..], separator);
      JoinSplit(s[1..], separator);
      assert s == [s[0]] + s[1..];
      if s[0] == separator {
        assert ([""] + rest)[1..] == rest;
      } else {
        assert ([[s[0]] + rest[0]] + rest[1..])[1..] == rest[1..];
        var fields := [[s[0]] + rest[0]] + rest[1..];
        forall i | 0 <= i < |fields| ensures separator !in fields[i] {
          if i > 0 { assert fields[i] == rest[i]; }
        }
      }
    }
  }

  lemma {:induction false} SplitJoin(fields: seq<string>, separator: char)
    requires Separate(fields, separator)
    ensures Split(Join(fields, separator), separator) == fields
    decreases |fields|, |fields[0]|
  {
    var head := fields[0];
    var text := Join(fields, separator);
    if head != "" {
      var shorter := [head[1..]] + fields[1..];
      assert shorter[1..] == fields[1..];
      assert text[1..] == Join(shorter, separator);
      assert separator !in fields[0];
      assert head[0] in head;
      SplitJoin(shorter, separator);
      assert [head[0]] + shorter[0] == head;
      assert fields == [head] + shorter[1..];
    } else if |fields| > 1 {
      assert text[1..] == Join(fields[1..], separator);
      SplitJoin(fields[1..], separator);
      assert fields == [""] + fields[1..];
    } else {
      assert fields == [""];
    }
  }

  predicate IsDigit(c: char) {
    '0' <= c <= '9'
  }

  predicate AllDigits(s: string) {
    forall i :: 0 <= i < |s| ==> IsDigit(s[i])
  }

  function Value(digits: string): nat
    requires AllDigits(digits)
  {
    if digits == "" then 0
    else 10 * Value(digits[..|digits| - 1]) + (digits[|digits| - 1] as int - '0' as int)
  }

  function Power10(k: nat): nat {
    if k == 0 then 1 else 10 * Power10(k - 1)
  }

  /** Digits count by their place: those on the left are worth the more, the more follow. */
  lemma {:induction false} ValueByPlace(left: string, right: string)
    requires AllDigits(left) && AllDigits(right)
    ensures AllDigits(left + right)
    ensures Value(left + right) == Value(left) * Power10(|right|) + Value(right)
    ensures |right| == 1 ==> Value(right) == right[0] as int - '0' as int
    decreases |right|
  {
    if right == "" {
      assert left + right == left;
    } else {
      var n := |right| - 1;
      ValueByPlace(left, right[..n]);
      assert (left + right)[..|left + right| - 1] == left + right[..n];
      TimesTen(Value(left), Power10(n));
    }
  }

  lemma TimesTen(a: nat, b: nat)
    ensures 10 * (a * b) == a * (10 * b)
  {
  }

  /** An unsigned machine word: one optional plus sign, at least one digit, no overflow. */
  function ParseUsize(s: string): Option<TaskId> {
    var digits := if s != "" && s[0] == '+' then s[1..] else s;
    if digits == "" || !AllDigits(digits) || Value(digits) > USIZE_MAX then None else Some(Value(digits))
  }

  /** The usual notation for a number. */
  function Decimal(n: nat): (digits: string)
    ensures digits != "" && AllDigits(digits)
  {
    var last := [('0' as int + n % 10) as char];
    if n < 10 then last else Decimal(n / 10) + last
  }

  lemma {:induction false} ValueDecimal(n: nat)
    ensures Value(Decimal(n)) == n
  {
    var digits := Decimal(n);
    if n >= 10 {
      ValueDecimal(n / 10);
      assert digits[..|digits| - 1] == Decimal(n / 10);
    } else {
      assert digits[..|digits| - 1] == "";
    }
  }

  lemma ParseDecimal(n: nat)
    ensures ParseUsize(Decimal(n)) == if n <= USIZE_MAX then Some(n) else None
  {
    ValueDecimal(n);
    assert IsDigit(Decimal(n)[0]);
  }

  /** What a number is made of: no separator of the range notation, nothing blank. */
  lemma NumeralCharacters(s: string)
    requires ParseUsize(s).Some?
    ensures s != "" && forall i :: 0 <= i < |s| ==> IsDigit(s[i]) || s[i] == '+'
  {
    var digits := if s[0] == '+' then s[1..] else s;
    assert forall i :: 0 <= i < |digits| ==> IsDigit(digits[i]);
    if s[0] == '+' {
      assert forall i :: 1 <= i < |s| ==> s[i] == digits[i - 1];
    }
  }
}
