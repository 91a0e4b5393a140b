/**
  The few java.lang.String operations GLUtils relies on, with the semantics of
  the Java library: `split(" ")`, `toLowerCase()`, `contains(...)` and the
  `String.format("0x%X", int)` used in error messages.
 */
module JavaLang {

  // ---------------------------------------------------------------------------
  // String.split(" ")
  // ---------------------------------------------------------------------------

  /** `s.indexOf(' ')`, where `|s|` stands for "not found" (Java's -1). */
  function IndexOfSpace(s: string): (i: nat)
    ensures i <= |s|
    ensures i < |s| ==> s[i] == ' '
    ensures forall k :: 0 <= k < i ==> s[k] != ' '
  {
    if s == [] || s[0] == ' ' then 0 else 1 + IndexOfSpace(s[1..])
  }

  /**
    Every field between single spaces, in order, including empty ones: what
    `split` collects before it trims.  A string with n spaces has n + 1 fields.
   */
  function Fields(s: string): (fields: seq<string>)
    ensures |fields| >= 1
    decreases |s|
  {
    var i := IndexOfSpace(s);
    if i == |s| then [s] else [s[..i]] + Fields(s[i + 1..])
  }

  /** The fields glued back together with single spaces. */
  function Join(fields: seq<string>): string
    requires |fields| >= 1
  {
    if |fields| == 1 then fields[0] else fields[0] + " " + Join(fields[1..])
  }

  /** Drops the empty strings at the end of `fields` (split with limit 0). */
  function TrimTrailingEmpty(fields: seq<string>): (r: seq<string>)
    ensures r <= fields
    ensures forall k :: |r| <= k < |fields| ==> fields[k] == ""
    ensures r == [] || r[|r| - 1] != ""
  {
    if fields == [] || fields[|fields| - 1] != "" then fields
    else TrimTrailingEmpty(fields[..|fields| - 1])
  }

  /**
    `s.split(" ")`: a string without any space is returned whole (so the empty
    string gives [""]); otherwise the fields, with trailing empty ones removed.
   */
  function Split(s: string): (tokens: seq<string>)
    ensures tokens <= Fields(s)
    ensures forall k :: |tokens| <= k < |Fields(s)| ==> Fields(s)[k] == ""
    ensures s == "" ==> tokens == [""]
    ensures s != "" ==> tokens == [] || tokens[|tokens| - 1] != ""
    ensures forall t <- tokens :: ' ' !in t
  {
    FieldsJoin(s);
    if IndexOfSpace(s) == |s| then [s] else TrimTrailingEmpty(Fields(s))
  }

  /** Splitting and joining again gives back the string; no field holds a space. */
  lemma {:induction false} FieldsJoin(s: string)
    ensures Join(Fields(s)) == s
    ensures forall t <- Fields(s) :: ' ' !in t
    decreases |s|
  {
    var i := IndexOfSpace(s);
    if i < |s| {
      FieldsJoin(s[i + 1..]);
      assert s == s[..i] + " " + s[i + 1..];
    }
  }

  /** The fields are the only space-free pieces that join to the string. */
  lemma {:induction false} FieldsUnique(fields: seq<string>)
    requires |fields| >= 1
    requires forall t <- fields :: ' ' !in t
    ensures Fields(Join(fields)) == fields
  {
    var s := Join(fields);
    assert fields[0] in fields;
    if |fields| == 1 {
      assert ' ' !in s;
    } else {
      var rest := Join(fields[1..]);
      assert s == fields[0] + " " + rest;
      assert s[|fields[0]|] == ' ';
      forall k | 0 <= k < |fields[0]| ensures s[k] != ' ' {
        assert s[k] == fields[0][k];
      }
      assert IndexOfSpace(s) == |fields[0]|;
      assert s[..|fields[0]|] == fields[0];
      assert s[|fields[0]| + 1..] == rest;
      FieldsUnique(fields[1..]);
      assert fields == [fields[0]] + fields[1..];
    }
  }

  /** `q` stands in `s` at `i`, with a space or an end of `s` on either side. */
  ghost predicate DelimitedAt(s: string, q: string, i: int)
  {
    0 <= i && i + |q| <= |s| && s[i..i + |q|] == q &&
    (i == 0 || s[i - 1] == ' ') &&
    (i + |q| == |s| || s[i + |q|] == ' ')
  }

  /** Every field occurs in the string with a space or an end on either side. */
  lemma {:induction false} FieldIsDelimited(s: string, q: string)
    requires q in Fields(s)
    ensures exists i :: DelimitedAt(s, q, i)
    decreases |s|
  {
    var k := IndexOfSpace(s);
    if k == |s| {
      assert DelimitedAt(s, q, 0);
    } else if q == s[..k] {
      assert DelimitedAt(s, q, 0);
    } else {
      var t := s[k + 1..];
      assert q in Fields(t);
      FieldIsDelimited(t, q);
      var j :| DelimitedAt(t, q, j);
      assert s[j + k + 1..j + k + 1 + |q|] == t[j..j + |q|];
      assert DelimitedAt(s, q, j + k + 1);
    }
  }

  /** A space-free string occurring space-delimited is one of the fields. */
  lemma {:induction false} DelimitedIsField(s: string, q: string, i: int)
    requires ' ' !in q
    requires DelimitedAt(s, q, i)
    ensures q in Fields(s)
    decreases |s|
  {
    var k := IndexOfSpace(s);
    if i == 0 {
      if |q| != k {
        assert false;
      }
      assert q == s[..k];
      assert Fields(s)[0] == q;
    } else {
      assert s[i - 1] == ' ';
      assert k <= i - 1 < |s|;
      var t := s[k + 1..];
      var j := i - k - 1;
      assert t[j..j + |q|] == s[i..i + |q|];
      assert DelimitedAt(t, q, j);
      DelimitedIsField(t, q, j);
      assert Fields(s) == [s[..k]] + Fields(t);
    }
  }

  /** A space-free string is a field exactly when it occurs space-delimited. */
  lemma FieldIffDelimited(s: string, q: string)
    requires ' ' !in q
    ensures q in Fields(s) <==> exists i :: DelimitedAt(s, q, i)
  {
    if q in Fields(s) {
      FieldIsDelimited(s, q);
    }
    if i :| DelimitedAt(s, q, i) {
      DelimitedIsField(s, q, i);
    }
  }

  /**
    A non-empty space-free query is a token of `s.split(" ")` exactly when it
    occurs in `s` with a space or an end of `s` on either side: a prefix or an
    extension of a token does not count.
   */
  lemma SplitMemberIffDelimited(s: string, q: string)
    requires q != "" && ' ' !in q
    ensures q in Split(s) <==> exists i :: DelimitedAt(s, q, i)
  {
    FieldIffDelimited(s, q);
    var tokens, fields := Split(s), Fields(s);
    if q in fields {
      var k :| 0 <= k < |fields| && fields[k] == q;
      assert k < |tokens|;
      assert tokens[k] == q;
    }
  }

  // ---------------------------------------------------------------------------
  // String.toLowerCase() and String.contains(...)
  // ---------------------------------------------------------------------------

  /** Lower-case of a character, for the ASCII letters. */
  function LowerChar(c: char): char
  {
    if 'A' <= c <= 'Z' then (c as int + 32) as char else c
  }

  /** Upper-case of an ASCII lower-case letter. */
  function UpperChar(c: char): char
    requires 'a' <= c <= 'z'
  {
    (c as int - 32) as char
  }

  /** `s.toLowerCase()`, restricted to ASCII letters. */
  function ToLowerCase(s: string): (r: string)
    ensures |r| == |s|
    ensures forall i :: 0 <= i < |s| ==> r[i] == LowerChar(s[i])
  {
    if s == [] then [] else [LowerChar(s[0])] + ToLowerCase(s[1..])
  }

  /** `t` stands in `s` at `i`. */
  predicate SubstringAt(s: string, t: string, i: int)
  {
    0 <= i <= |s| - |t| && s[i..i + |t|] == t
  }

  /** `s.contains(t)`. */
  predicate Contains(s: string, t: string)
  {
    exists i | 0 <= i <= |s| - |t| :: SubstringAt(s, t, i)
  }

  /** Every lower-case ASCII letter. */
  predicate IsLowerWord(t: string)
  {
    forall k :: 0 <= k < |t| ==> 'a' <= t[k] <= 'z'
  }

  /** `t` stands in `s` at `i`, letter for letter in either case. */
  ghost predicate MatchesIgnoringCaseAt(s: string, t: string, i: int)
    requires IsLowerWord(t)
  {
    0 <= i <= |s| - |t| &&
    forall k :: 0 <= k < |t| ==> s[i + k] == t[k] || s[i + k] == UpperChar(t[k])
  }

  /**
    Lower-casing and then searching for a lower-case word finds the word in
    any mix of cases, and nothing else.
   */
  lemma LowerContainsIffIgnoringCase(s: string, t: string)
    requires IsLowerWord(t)
    ensures Contains(ToLowerCase(s), t) <==> exists i :: MatchesIgnoringCaseAt(s, t, i)
  {
    var lower := ToLowerCase(s);
    forall i | 0 <= i <= |s| - |t|
      ensures lower[i..i + |t|] == t <==> MatchesIgnoringCaseAt(s, t, i)
    {
      if lower[i..i + |t|] == t {
        forall k | 0 <= k < |t|
          ensures s[i + k] == t[k] || s[i + k] == UpperChar(t[k])
        {
          assert lower[i + k] == t[k];
        }
      }
      if MatchesIgnoringCaseAt(s, t, i) {
        forall k | 0 <= k < |t|
          ensures lower[i..i + |t|][k] == t[k]
        {
          assert lower[i + k] == LowerChar(s[i + k]);
        }
      }
    }
    if Contains(lower, t) {
      var i :| 0 <= i <= |lower| - |t| && SubstringAt(lower, t, i);
      assert MatchesIgnoringCaseAt(s, t, i);
    }
    if i :| MatchesIgnoringCaseAt(s, t, i) {
      assert SubstringAt(lower, t, i);
    }
  }

  // ---------------------------------------------------------------------------
  // String.format("0x%X", int)
  // ---------------------------------------------------------------------------

  type Int32 = x: int | -0x8000_0000 <= x < 0x8000_0000

  /** The value `%X` prints for a Java int: negatives are taken modulo 2^32. */
  function Unsigned32(x: Int32): (u: nat)
    ensures u < 0x1_0000_0000
    ensures u % 0x1_0000_0000 == x % 0x1_0000_0000
  {
    if x < 0 then x + 0x1_0000_0000 else x
  }

  /** The Java int with the given 32-bit pattern. */
  function Signed32(u: nat): Int32
    requires u < 0x1_0000_0000
  {
    if u < 0x8000_0000 then u else u - 0x1_0000_0000
  }

  predicate IsHexDigit(c: char)
  {
    '0' <= c <= '9' || 'A' <= c <= 'F'
  }

  function HexDigit(d: nat): (c: char)
    requires d < 16
    ensures IsHexDigit(c)
  {
    if d < 10 then ('0' as int + d) as char else ('A' as int + d - 10) as char
  }

  function HexValue(c: char): (d: nat)
    requires IsHexDigit(c)
    ensures d < 16 && HexDigit(d) == c
  {
    if c <= '9' then c as int - '0' as int else c as int - 'A' as int + 10
  }

  /** The upper-case hexadecimal numeral of `n`, without leading zeros. */
  function HexString(n: nat): (s: string)
    ensures |s| >= 1
    ensures forall k :: 0 <= k < |s| ==> IsHexDigit(s[k])
    ensures n > 0 ==> s[0] != '0'
    decreases n
  {
    if n < 16 then [HexDigit(n)] else HexString(n / 16) + [HexDigit(n % 16)]
  }

  /** The value of a hexadecimal numeral. */
  function ParseHex(s: string): nat
    requires forall k :: 0 <= k < |s| ==> IsHexDigit(s[k])
  {
    if s == [] then 0 else ParseHex(s[..|s| - 1]) * 16 + HexValue(s[|s| - 1])
  }

  /** Reading the numeral back gives the number. */
  lemma {:induction false} ParseHexString(n: nat)
    ensures ParseHex(HexString(n)) == n
    decreases n
  {
    var s := HexString(n);
    if n >= 16 {
      ParseHexString(n / 16);
      assert s[..|s| - 1] == HexString(n / 16);
      assert HexValue(s[|s| - 1]) == n % 16;
    } else {
      assert s[..|s| - 1] == [];
      assert HexValue(HexDigit(n)) == n;
    }
  }

}
