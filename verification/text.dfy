/** The Python string operations the translator relies on, written out
    character by character (no regular-expression engine). */
module Text {
  import opened Wrappers
  import opened Seqs

  /** Python's `str.isspace()` for a single character. */
  predicate IsSpace(c: char) {
    var n := c as int;
    || 9 <= n <= 13 || 28 <= n <= 32 || n == 0x85 || n == 0xA0 || n == 0x1680
    || 0x2000 <= n <= 0x200A || n == 0x2028 || n == 0x2029 || n == 0x202F
    || n == 0x205F || n == 0x3000
  }

  /** `sub` occurs in `s` starting at index `i`. */
  predicate OccursAt(s: string, sub: string, i: int) {
    0 <= i && i + |sub| <= |s| && s[i..i + |sub|] == sub
  }

  /** Leftmost occurrence of `sub` in `s` at or after `from`. */
  function IndexOfFrom(s: string, sub: string, from: nat): (r: Option<nat>)
    requires from <= |s|
    decreases |s| - from
    ensures r.Some? ==> from <= r.value && OccursAt(s, sub, r.value)
    ensures r.Some? ==> forall j :: from <= j < r.value ==> !OccursAt(s, sub, j)
    ensures r.None? ==> forall j :: from <= j ==> !OccursAt(s, sub, j)
  {
    if from + |sub| > |s| then None
    else if s[from..from + |sub|] == sub then Some(from)
    else IndexOfFrom(s, sub, from + 1)
  }

  /** Python's `s.find(sub)`, as an option. */
  function IndexOf(s: string, sub: string): (r: Option<nat>)
    ensures r.Some? ==> OccursAt(s, sub, r.value)
    ensures r.Some? ==> forall j :: 0 <= j < r.value ==> !OccursAt(s, sub, j)
    ensures r.None? ==> forall j :: !OccursAt(s, sub, j)
  {
    IndexOfFrom(s, sub, 0)
  }

  /** Python's `sub in s`. */
  predicate Contains(s: string, sub: string) {
    IndexOf(s, sub).Some?
  }

  lemma ContainsAt(s: string, sub: string, i: int)
    requires OccursAt(s, sub, i)
    ensures Contains(s, sub)
  {
  }

  lemma OccursInSuffix(s: string, k: int, sub: string, j: int)
    requires 0 <= k <= |s| && 0 <= j
    ensures OccursAt(s[k..], sub, j) <==> OccursAt(s, sub, k + j)
  {
    if j + |sub| <= |s| - k {
      assert s[k + j..k + j + |sub|] == s[k..][j..j + |sub|];
    }
  }

  /** Where the last piece of `s.split(sep)` starts when the scan for
      separators begins at `from`. */
  function LastPieceStart(s: string, sep: string, from: nat): (k: nat)
    requires |sep| > 0 && from <= |s|
    decreases |s| - from
    ensures from <= k <= |s|
    ensures forall j :: k <= j ==> !OccursAt(s, sep, j)
    ensures k > from ==> OccursAt(s, sep, k - |sep|)
    ensures k == from ==> forall j :: from <= j ==> !OccursAt(s, sep, j)
  {
    match IndexOfFrom(s, sep, from)
    case None => from
    case Some(i) => LastPieceStart(s, sep, i + |sep|)
  }

  /** Python's `s.split(sep)[-1]`: what follows the last separator, where
      separators are found left to right without overlapping. */
  function SplitLast(s: string, sep: string): (r: string)
    requires |sep| > 0
    ensures |r| <= |s| && r == s[|s| - |r|..]
    ensures !Contains(r, sep)
    ensures Contains(s, sep) ==> OccursAt(s, sep, |s| - |r| - |sep|)
    ensures !Contains(s, sep) ==> r == s
  {
    var k := LastPieceStart(s, sep, 0);
    assert forall j :: 0 <= j ==> !OccursAt(s[k..], sep, j) by {
      forall j | 0 <= j ensures !OccursAt(s[k..], sep, j) {
        OccursInSuffix(s, k, sep, j);
      }
    }
    s[k..]
  }

  /** Drops leading whitespace. */
  function TrimStart(s: string): (r: string)
    decreases |s|
    ensures |r| <= |s| && r == s[|s| - |r|..]
    ensures forall i :: 0 <= i < |s| - |r| ==> IsSpace(s[i])
    ensures |r| > 0 ==> !IsSpace(r[0])
  {
    if |s| > 0 && IsSpace(s[0]) then TrimStart(s[1..]) else s
  }

  /** Drops trailing whitespace. */
  function TrimEnd(s: string): (r: string)
    decreases |s|
    ensures |r| <= |s| && r == s[..|r|]
    ensures forall i :: |r| <= i < |s| ==> IsSpace(s[i])
    ensures |r| > 0 ==> !IsSpace(r[|r| - 1])
  {
    if |s| > 0 && IsSpace(s[|s| - 1]) then TrimEnd(s[..|s| - 1]) else s
  }

  /** Python's `s.strip()`: the text between the leading and the trailing
      whitespace. */
  function Strip(s: string): (r: string)
    ensures exists k ::
              && 0 <= k <= |s| - |r| && OccursAt(s, r, k)
              && (forall i :: 0 <= i < k ==> IsSpace(s[i]))
              && (forall i :: k + |r| <= i < |s| ==> IsSpace(s[i]))
    ensures |r| > 0 ==> !IsSpace(r[0]) && !IsSpace(r[|r| - 1])
  {
    var t := TrimStart(s);
    var r := TrimEnd(t);
    var k := |s| - |t|;
    assert s[k..k + |r|] == r;
    assert OccursAt(s, r, k);
    r
  }

  /** Stripping twice strips nothing more. */
  lemma StripIdempotent(s: string)
    ensures Strip(Strip(s)) == Strip(s)
  {
    var r := Strip(s);
    if |r| > 0 {
      assert TrimStart(r) == r;
      assert TrimEnd(r) == r;
    }
  }

  /** What removing `c` leaves of the single character `x`. */
  function KeptChar(x: char, c: char): string {
    if x == c then "" else [x]
  }

  /** Python's `s.replace(c, "")` for a one-character `c`: the other
      characters stay, in their order. */
  function RemoveChar(s: string, c: char): (r: string)
    decreases |s|
    ensures c !in r
    ensures forall x :: x != c ==> multiset(r)[x] == multiset(s)[x]
    ensures r == Flatten(seq(|s|, i requires 0 <= i < |s| => KeptChar(s[i], c)))
  {
    if |s| == 0 then ""
    else
      assert s == [s[0]] + s[1..];
      var images := seq(|s|, i requires 0 <= i < |s| => KeptChar(s[i], c));
      assert images[1..] == seq(|s| - 1, i requires 0 <= i < |s| - 1 => KeptChar(s[1..][i], c));
      KeptChar(s[0], c) + RemoveChar(s[1..], c)
  }

  /** Removal works piece by piece. */
  lemma {:induction false} RemoveCharAppend(a: string, b: string, c: char)
    ensures RemoveChar(a + b, c) == RemoveChar(a, c) + RemoveChar(b, c)
    decreases |a|
  {
    if |a| == 0 {
      assert a + b == b;
    } else {
      assert (a + b)[0] == a[0] && (a + b)[1..] == a[1..] + b;
      RemoveCharAppend(a[1..], b, c);
      AppendAssoc(KeptChar(a[0], c), RemoveChar(a[1..], c), RemoveChar(b, c));
    }
  }

  /** Python's `s.replace(old, new)`: every occurrence of `pattern`, found
      left to right without overlapping, is replaced by `replacement`. */
  function ReplaceAll(s: string, pattern: string, replacement: string): (r: string)
    requires |pattern| > 0
    decreases |s|
    ensures !Contains(s, pattern) ==> r == s
  {
    match IndexOf(s, pattern)
    case None => s
    case Some(i) => s[..i] + replacement + ReplaceAll(s[i + |pattern|..], pattern, replacement)
  }

  /** What `re.sub(":", " : ", s)` makes of the single character `x`. */
  function Spaced(x: char): string {
    if x == ':' then " : " else [x]
  }

  /** Python's `re.sub(":", " : ", s)`: each colon gets a space on both
      sides; every other character stays, in order. */
  function SpaceColons(s: string): (r: string)
    decreases |s|
    ensures |r| >= |s|
    ensures ':' !in s ==> r == s
    ensures |r| > 0 ==> r[0] != ':'
    ensures r == Flatten(seq(|s|, i requires 0 <= i < |s| => Spaced(s[i])))
  {
    if |s| == 0 then ""
    else
      var images := seq(|s|, i requires 0 <= i < |s| => Spaced(s[i]));
      assert images[1..] == seq(|s| - 1, i requires 0 <= i < |s| - 1 => Spaced(s[1..][i]));
      Spaced(s[0]) + SpaceColons(s[1..])
  }

  /** Re-spacing works piece by piece; with the single-character cases
      this fixes the result for every text. */
  lemma {:induction false} SpaceColonsAppend(a: string, b: string)
    ensures SpaceColons(a + b) == SpaceColons(a) + SpaceColons(b)
    decreases |a|
  {
    if |a| == 0 {
      assert a + b == b;
    } else {
      assert (a + b)[0] == a[0] && (a + b)[1..] == a[1..] + b;
      SpaceColonsAppend(a[1..], b);
      AppendAssoc(Spaced(a[0]), SpaceColons(a[1..]), SpaceColons(b));
    }
  }

  lemma SpaceColonsChar(x: char)
    ensures SpaceColons([x]) == if x == ':' then " : " else [x]
  {
    assert [x][1..] == "";
  }

  /** Reads every " : " back as ":", scanning left to right. */
  function UnspaceColons(s: string): string
    decreases |s|
  {
    if |s| >= 3 && s[..3] == " : " then ":" + UnspaceColons(s[3..])
    else if |s| == 0 then ""
    else [s[0]] + UnspaceColons(s[1..])
  }

  /** Re-spacing colons loses nothing: the original text can be read back. */
  lemma {:induction false} UnspaceSpaceColons(s: string)
    ensures UnspaceColons(SpaceColons(s)) == s
    decreases |s|
  {
    if |s| > 0 {
      var rest := SpaceColons(s[1..]);
      UnspaceSpaceColons(s[1..]);
      if s[0] == ':' {
        var r := " : " + rest;
        assert SpaceColons(s) == r;
        assert r[..3] == " : " && r[3..] == rest;
        assert UnspaceColons(r) == ":" + UnspaceColons(rest);
      } else {
        var r := [s[0]] + rest;
        assert SpaceColons(s) == r;
        if |r| >= 3 {
          assert r[..3][1] == rest[0] != ':' == " : "[1];
        }
        assert r[1..] == rest;
      }
      assert s == [s[0]] + s[1..];
    }
  }

  /** A line as Python's `readlines()` yields it: a newline can only be its
      last character. */
  predicate IsLine(s: string) {
    forall j :: 0 <= j < |s| - 1 ==> s[j] != '\n'
  }

  /** Text without newlines in front of a line keeps it a line. */
  lemma PrependToLine(p: string, s: string)
    requires forall j :: 0 <= j < |p| ==> p[j] != '\n'
    requires IsLine(s)
    ensures IsLine(p + s)
  {
    forall j | 0 <= j < |p + s| - 1 ensures (p + s)[j] != '\n' {
      if j >= |p| {
        assert (p + s)[j] == s[j - |p|];
      }
    }
  }

  lemma {:induction false} SpaceColonsKeepsLine(s: string)
    ensures IsLine(s) ==> IsLine(SpaceColons(s))
    decreases |s|
  {
    if IsLine(s) && |s| > 0 {
      var head := if s[0] == ':' then " : " else [s[0]];
      assert SpaceColons(s) == head + SpaceColons(s[1..]);
      if |s| == 1 {
        assert SpaceColons(s) == head + SpaceColons("");
      } else {
        assert s[0] != '\n';
        SpaceColonsKeepsLine(s[1..]);
        PrependToLine(head, SpaceColons(s[1..]));
      }
    }
  }

  /** Python's `readlines()` on an in-memory text: the text cut after
      every newline; a final piece without newline is kept. */
  function ReadLines(text: string): (r: seq<string>)
    decreases |text|
    ensures Flatten(r) == text
    ensures forall i :: 0 <= i < |r| ==> |r[i]| > 0 && IsLine(r[i])
    ensures forall i :: 0 <= i < |r| - 1 ==> r[i][|r[i]| - 1] == '\n'
  {
    if |text| == 0 then []
    else match IndexOf(text, "\n")
      case None =>
        assert forall j :: 0 <= j < |text| ==> text[j] != '\n' by {
          forall j | 0 <= j < |text| ensures text[j] != '\n' {
            assert !OccursAt(text, "\n", j);
            assert text[j..j + 1] == [text[j]];
          }
        }
        [text]
      case Some(i) =>
        var head := text[..i + 1];
        assert text[i..i + 1] == "\n";
        assert IsLine(head) by {
          forall j | 0 <= j < i ensures head[j] != '\n' {
            assert !OccursAt(text, "\n", j);
            assert text[j..j + 1] == [text[j]];
          }
        }
        var rest := ReadLines(text[i + 1..]);
        assert text == head + text[i + 1..];
        [head] + rest
  }

  /** Python's `sep.join(parts)`. */
  function Join(parts: seq<string>, sep: string): (r: string)
    decreases |parts|
    ensures |parts| == 0 ==> r == ""
    ensures |parts| > 0 ==> |r| == |Flatten(parts)| + (|parts| - 1) * |sep|
    ensures |parts| > 0 ==> r[..|parts[0]|] == parts[0]
  {
    if |parts| == 0 then ""
    else if |parts| == 1 then
      assert Flatten(parts) == parts[0] + Flatten(parts[1..]);
      parts[0]
    else
      var rest := Join(parts[1..], sep);
      assert (parts[0] + sep + rest)[..|parts[0]|] == parts[0];
      parts[0] + sep + rest
  }

  /** Joining two non-empty lists puts one separator between their joins;
      with `Join([p], sep) == p` this fixes the join of every list. */
  lemma {:induction false} JoinAppend(a: seq<string>, b: seq<string>, sep: string)
    requires |a| > 0 && |b| > 0
    ensures Join(a + b, sep) == Join(a, sep) + sep + Join(b, sep)
    decreases |a|
  {
    var ab := a + b;
    assert ab[0] == a[0] && ab[1..] == a[1..] + b;
    assert Join(ab, sep) == a[0] + sep + Join(a[1..] + b, sep);
    if |a| == 1 {
      assert a[1..] + b == b;
    } else {
      JoinAppend(a[1..], b, sep);
      var x, y := Join(a[1..], sep), Join(b, sep);
      assert Join(a, sep) == a[0] + sep + x;
      AppendAssoc(a[0] + sep, x + sep, y);
      AppendAssoc(x, sep, y);
      AppendAssoc(a[0] + sep, x, sep);
    }
  }

  lemma JoinSingle(p: string, sep: string)
    ensures Join([p], sep) == p
  {
  }

  /** The decimal digit for `d`. */
  function DigitChar(d: nat): (c: char)
    requires d < 10
    ensures '0' <= c <= '9'
    ensures c as int - '0' as int == d
  {
    ('0' as int + d) as char
  }

  /** Reference: the number a string of decimal digits denotes. */
  function DigitsValue(s: string): nat
    requires forall i :: 0 <= i < |s| ==> '0' <= s[i] <= '9'
    decreases |s|
  {
    if |s| == 0 then 0
    else DigitsValue(s[..|s| - 1]) * 10 + (s[|s| - 1] as int - '0' as int)
  }

  /** Python's `str(n)` for a natural number: the decimal digits of n,
      without leading zero. */
  function NatToString(n: nat): (r: string)
    decreases n
    ensures |r| > 0
    ensures forall i :: 0 <= i < |r| ==> '0' <= r[i] <= '9'
    ensures DigitsValue(r) == n
    ensures n > 0 || |r| > 1 ==> r[0] != '0'
  {
    if n < 10 then [DigitChar(n)]
    else
      var r := NatToString(n / 10) + [DigitChar(n % 10)];
      assert r[..|r| - 1] == NatToString(n / 10);
      r
  }

  /** Different numbers are written differently. */
  lemma NatToStringInjective(m: nat, n: nat)
    requires NatToString(m) == NatToString(n)
    ensures m == n
  {
  }
}
