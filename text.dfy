/** String operations with the meaning of the JavaScript built-ins the source relies on:
    `trim`, `toLowerCase` (for ASCII), `parseInt(s, 10)`, `split`, `replace` of a first match,
    and the decimal rendering of a number inside a template string. */
module Text {
  import opened Common

  /** The code points JavaScript counts as white space or line terminators
      (skipped by `String.prototype.trim` and by `parseInt`). */
  predicate IsJsSpace(c: char)
  {
    c == '\t' || c == '\n' || c == '\U{000B}' || c == '\U{000C}' || c == '\r' || c == ' '
    || c == '\U{00A0}' || c == '\U{1680}' || ('\U{2000}' <= c <= '\U{200A}')
    || c == '\U{2028}' || c == '\U{2029}' || c == '\U{202F}' || c == '\U{205F}'
    || c == '\U{3000}' || c == '\U{FEFF}'
  }

  /** What remains after dropping the leading white space. */
  function TrimStart(s: string): (r: string)
    ensures |r| <= |s| && r == s[|s| - |r|..]
    ensures forall i :: 0 <= i < |s| - |r| ==> IsJsSpace(s[i])
    ensures r == [] || !IsJsSpace(r[0])
  {
    if s != [] && IsJsSpace(s[0]) then TrimStart(s[1..]) else s
  }

  /** What remains after dropping the trailing white space. */
  function TrimEnd(s: string): (r: string)
    ensures |r| <= |s| && r == s[..|r|]
    ensures forall i :: |r| <= i < |s| ==> IsJsSpace(s[i])
    ensures r == [] || !IsJsSpace(r[|r| - 1])
  {
    if s != [] && IsJsSpace(s[|s| - 1]) then TrimEnd(s[..|s| - 1]) else s
  }

  /** `String.prototype.trim`, also what Mongoose's `trim: true` setter stores. */
  function Trim(s: string): string
  {
    TrimEnd(TrimStart(s))
  }

  /** A trimmed string neither starts nor ends with white space, and trimming again changes nothing. */
  lemma TrimIsIdempotent(s: string)
    ensures var t := Trim(s); (t == [] || (!IsJsSpace(t[0]) && !IsJsSpace(t[|t| - 1]))) && Trim(t) == t
  {
    var u := TrimStart(s);
    var t := TrimEnd(u);
    if t != [] {
      assert t[0] == u[0];
    }
  }

  /** ASCII case mapping; the tables the source matches against are ASCII, so this is all it needs. */
  function LowerChar(c: char): char
  {
    if 'A' <= c <= 'Z' then (c as int + 32) as char else c
  }

  function UpperChar(c: char): char
  {
    if 'a' <= c <= 'z' then (c as int - 32) as char else c
  }

  function ToLower(s: string): (r: string)
    ensures |r| == |s| && forall i :: 0 <= i < |s| ==> r[i] == LowerChar(s[i])
  {
    seq(|s|, i requires 0 <= i < |s| => LowerChar(s[i]))
  }

  /** The positions of the code points above U+FFFF, which UTF-16 writes as surrogate pairs. */
  function Astral(s: string): set<int>
  {
    set i | 0 <= i < |s| && s[i] as int >= 0x1_0000
  }

  /** JavaScript's `length`: the number of UTF-16 code units, two for a code point above U+FFFF.
      Mongoose's `maxlength` and `minlength` count this. */
  function Utf16Length(s: string): (r: nat)
    ensures |s| <= r <= 2 * |s|
  {
    AstralWithinIndices(s);
    |s| + |Astral(s)|
  }

  /** The last code point adds its own position when it lies above U+FFFF. */
  lemma AstralSnoc(s: string)
    requires s != []
    ensures Astral(s) == Astral(s[..|s| - 1]) + (if s[|s| - 1] as int >= 0x1_0000 then {|s| - 1} else {})
  {
    var init := s[..|s| - 1];
    forall i | 0 <= i < |init| ensures init[i] == s[i] { }
  }

  /** At most one surrogate pair per code point; all code points astral exactly when every
      position counts. */
  lemma {:induction false} AstralWithinIndices(s: string)
    ensures |Astral(s)| <= |s|
    ensures |Astral(s)| == |s| <==> forall i :: 0 <= i < |s| ==> s[i] as int >= 0x1_0000
  {
    if s != [] {
      var n := |s|;
      var init := s[..n - 1];
      var last := s[n - 1] as int >= 0x1_0000;
      AstralWithinIndices(init);
      AstralSnoc(s);
      assert n - 1 !in Astral(init);
      assert |Astral(s)| == |Astral(init)| + (if last then 1 else 0);
      forall i | 0 <= i < n - 1 ensures init[i] == s[i] { }
      assert (forall i :: 0 <= i < n ==> s[i] as int >= 0x1_0000) <==>
        (forall i :: 0 <= i < n - 1 ==> init[i] as int >= 0x1_0000) && last;
    }
  }

  /** The UTF-16 length is the number of code points exactly when none lies above U+FFFF, and
      twice that number exactly when all do. */
  lemma Utf16LengthExtremes(s: string)
    ensures Utf16Length(s) == |s| <==> forall i :: 0 <= i < |s| ==> s[i] as int < 0x1_0000
    ensures Utf16Length(s) == 2 * |s| <==> forall i :: 0 <= i < |s| ==> s[i] as int >= 0x1_0000
  {
    AstralWithinIndices(s);
    if !forall i :: 0 <= i < |s| ==> s[i] as int < 0x1_0000 {
      var i :| 0 <= i < |s| && s[i] as int >= 0x1_0000;
      assert i in Astral(s);
    }
  }

  /** True when `pat` occurs in `s` with ASCII case ignored (a JavaScript `/pat/i` test). */
  predicate ContainsIgnoringCase(s: string, pat: string)
  {
    exists i :: 0 <= i <= |s| && OccursAt(ToLower(s), ToLower(pat), i)
  }

  predicate IsDigit(c: char)
  {
    '0' <= c <= '9'
  }

  predicate AllDigits(s: string)
  {
    forall i :: 0 <= i < |s| ==> IsDigit(s[i])
  }

  function DigitChar(d: nat): (c: char)
    requires d < 10
    ensures IsDigit(c)
  {
    ('0' as int + d) as char
  }

  /** The number a string of decimal digits denotes. */
  function DigitsValue(s: string): nat
    requires AllDigits(s)
  {
    if s == [] then 0 else DigitsValue(s[..|s| - 1]) * 10 + (s[|s| - 1] as int - '0' as int)
  }

  /** The decimal rendering of a natural number, as `${n}` in a template string. */
  function NatToString(n: nat): (r: string)
    ensures |r| >= 1 && AllDigits(r)
    ensures |r| > 1 ==> r[0] != '0'
  {
    if n < 10 then [DigitChar(n)] else NatToString(n / 10) + [DigitChar(n % 10)]
  }

  lemma {:induction false} NatToStringRoundTrip(n: nat)
    ensures DigitsValue(NatToString(n)) == n
  {
    if n >= 10 {
      var r := NatToString(n);
      assert r[..|r| - 1] == NatToString(n / 10);
      NatToStringRoundTrip(n / 10);
    }
  }

  /** The longest prefix of `s` made of decimal digits. */
  function DigitPrefix(s: string): (r: string)
    ensures |r| <= |s| && r == s[..|r|] && AllDigits(r)
    ensures |r| < |s| ==> !IsDigit(s[|r|])
  {
    if s != [] && IsDigit(s[0]) then [s[0]] + DigitPrefix(s[1..]) else []
  }

  /** `parseInt(s, 10)`: leading white space and one optional sign are skipped, then the longest
      run of decimal digits is read; `None` stands for NaN (no digit at that point). */
  function ParseInt(s: string): Option<int>
  {
    var t := TrimStart(s);
    var negative := t != [] && t[0] == '-';
    var u := if t != [] && (t[0] == '+' || t[0] == '-') then t[1..] else t;
    var d := DigitPrefix(u);
    if d == [] then None
    else
      var v: int := DigitsValue(d);
      Some(if negative then -v else v)
  }

  /** parseInt reads back a rendered number, whatever non-digit text follows it. */
  lemma ParseIntOfNatToString(n: nat, rest: string)
    requires rest == [] || !IsDigit(rest[0])
    ensures ParseInt(NatToString(n) + rest) == Some(n)
  {
    var d := NatToString(n);
    var s := d + rest;
    assert s[0] == d[0] && IsDigit(d[0]);
    assert TrimStart(s) == s;
    assert s[0] != '+' && s[0] != '-';
    DigitPrefixOfDigits(d, rest);
    NatToStringRoundTrip(n);
  }

  lemma {:induction false} DigitPrefixOfDigits(d: string, rest: string)
    requires AllDigits(d)
    requires rest == [] || !IsDigit(rest[0])
    ensures DigitPrefix(d + rest) == d
  {
    if d != [] {
      assert (d + rest)[1..] == d[1..] + rest;
      DigitPrefixOfDigits(d[1..], rest);
    }
  }

  /** `s.split(sep)` for a one-character separator: the pieces between separators, always at least one. */
  function Split(s: string, sep: char): (r: seq<string>)
    ensures |r| >= 1
    ensures forall k :: 0 <= k < |r| ==> sep !in r[k]
  {
    if s == [] then [[]]
    else if s[0] == sep then [[]] + Split(s[1..], sep)
    else
      var rest := Split(s[1..], sep);
      [[s[0]] + rest[0]] + rest[1..]
  }

  /** `parts.join(sep)`. */
  function Join(parts: seq<string>, sep: char): string
  {
    if parts == [] then []
    else if |parts| == 1 then parts[0]
    else parts[0] + [sep] + Join(parts[1..], sep)
  }

  /** Joining the pieces of a split gives back the original string. */
  lemma {:induction false} JoinSplit(s: string, sep: char)
    ensures Join(Split(s, sep), sep) == s
  {
    if s != [] {
      JoinSplit(s[1..], sep);
      var rest := Split(s[1..], sep);
      if s[0] == sep {
        assert Split(s, sep) == [[]] + rest;
        assert s == [sep] + s[1..];
      } else {
        var r := Split(s, sep);
        assert r == [[s[0]] + rest[0]] + rest[1..];
        if |rest| == 1 {
          assert s[1..] == rest[0];
        } else {
          assert r[1..] == rest[1..];
          assert Join(rest, sep) == rest[0] + [sep] + Join(rest[1..], sep);
          assert Join(r, sep) == r[0] + [sep] + Join(rest[1..], sep);
        }
      }
    }
  }

  /** Splitting a join of separator-free pieces gives the pieces back. */
  lemma {:induction false} SplitJoin(parts: seq<string>, sep: char)
    requires |parts| >= 1
    requires forall k :: 0 <= k < |parts| ==> sep !in parts[k]
    ensures Split(Join(parts, sep), sep) == parts
  {
    if |parts| == 1 {
      assert parts[0] + [] == parts[0] && [parts[0]] == parts;
      SplitOfPlain(parts[0], [], sep, []);
    } else {
      SplitJoin(parts[1..], sep);
      var tail := [sep] + Join(parts[1..], sep);
      assert tail[1..] == Join(parts[1..], sep);
      assert Join(parts, sep) == parts[0] + tail;
      assert [parts[0]] + parts[1..] == parts;
      SplitOfPlain(parts[0], [sep] + Join(parts[1..], sep), sep, parts[1..]);
    }
  }

  /** Split of a separator-free head followed by either nothing or a separator and more text. */
  lemma {:induction false} SplitOfPlain(a: string, tail: string, sep: char, tailParts: seq<string>)
    requires sep !in a
    requires (tail == [] && tailParts == []) || (tail != [] && tail[0] == sep && Split(tail[1..], sep) == tailParts)
    ensures Split(a + tail, sep) == [a] + tailParts
  {
    if a == [] {
      assert a + tail == tail;
      if tail != [] {
        assert Split(tail, sep) == [[]] + Split(tail[1..], sep);
      }
    } else {
      assert (a + tail)[1..] == a[1..] + tail;
      SplitOfPlain(a[1..], tail, sep, tailParts);
      assert [a[0]] + a[1..] == a;
    }
  }

  /** True when `pat` occurs in `s` starting at index `i`. */
  predicate OccursAt(s: string, pat: string, i: int)
  {
    0 <= i && i + |pat| <= |s| && s[i..i + |pat|] == pat
  }

  /** The index of the first occurrence of `pat` in `s`. */
  function FindFirst(s: string, pat: string): (r: Option<nat>)
    ensures r.Some? ==> OccursAt(s, pat, r.value)
    ensures r.Some? ==> forall i :: 0 <= i < r.value ==> !OccursAt(s, pat, i)
    ensures r.None? ==> forall i :: !OccursAt(s, pat, i)
  {
    if |s| < |pat| then None
    else if s[..|pat|] == pat then Some(0)
    else
      var r := FindFirst(s[1..], pat);
      assert forall i :: 1 <= i ==> (OccursAt(s, pat, i) <==> OccursAt(s[1..], pat, i - 1)) by {
        forall i | 1 <= i ensures OccursAt(s, pat, i) <==> OccursAt(s[1..], pat, i - 1) {
          if i + |pat| <= |s| {
            var a, b := s[i..i + |pat|], s[1..][i - 1..i - 1 + |pat|];
            assert |a| == |b| && forall j :: 0 <= j < |a| ==> a[j] == b[j];
          }
        }
      }
      match r
      case None => None
      case Some(k) => Some(k + 1)
  }

  /** `s.replace(/pat/, rep)`: only the first match is replaced. */
  function ReplaceFirst(s: string, pat: string, rep: string): string
  {
    match FindFirst(s, pat)
    case None => s
    case Some(i) => s[..i] + rep + s[i + |pat|..]
  }

  lemma ReplaceFirstAtStart(pat: string, rest: string, rep: string)
    ensures ReplaceFirst(pat + rest, pat, rep) == rep + rest
  {
    assert (pat + rest)[..|pat|] == pat;
    assert (pat + rest)[|pat|..] == rest;
  }
}
