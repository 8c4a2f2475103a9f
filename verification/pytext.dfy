/**
 * The parts of Python's string semantics the application relies on:
 * `str.strip`, `in`, `startswith`, `lower`, `replace`, `int(str)`, `str(int)`,
 * truthiness, and SQLite's `LIKE` as issued by SQLAlchemy's `contains`.
 */
module PyText {
  import opened Wrappers

  // ---------------------------------------------------------------------
  // Truthiness

  /** `bool(s)` for an optional string: `None` and `""` are falsy. */
  predicate TruthyStr(s: Option<string>) {
    s.Some? && |s.value| > 0
  }

  /** `bool(n)` for an optional integer: `None` and `0` are falsy. */
  predicate TruthyInt(n: Option<int>) {
    n.Some? && n.value != 0
  }

  // ---------------------------------------------------------------------
  // Whitespace and strip

  /** Python's `str.isspace` on one character. */
  predicate IsSpace(c: char) {
    || ('\t' <= c <= '\r')
    || ('\U{1C}' <= c <= '\U{1F}')
    || c == ' ' || c == '\U{85}' || c == '\U{A0}' || c == '\U{1680}'
    || ('\U{2000}' <= c <= '\U{200A}')
    || c == '\U{2028}' || c == '\U{2029}' || c == '\U{202F}' || c == '\U{205F}'
    || c == '\U{3000}'
  }

  predicate AllSpace(s: string) {
    forall i :: 0 <= i < |s| ==> IsSpace(s[i])
  }

  function LStrip(s: string): (r: string)
    ensures |r| <= |s| && r == s[|s| - |r|..]
    ensures AllSpace(s[..|s| - |r|])
    ensures r == [] || !IsSpace(r[0])
  {
    if |s| > 0 && IsSpace(s[0]) then
      var r := LStrip(s[1..]);
      assert s[..|s| - |r|] == [s[0]] + s[1..][..|s| - 1 - |r|];
      r
    else s
  }

  function RStrip(s: string): (r: string)
    ensures |r| <= |s| && r == s[..|r|]
    ensures AllSpace(s[|r|..])
    ensures r == [] || !IsSpace(r[|r| - 1])
  {
    if |s| > 0 && IsSpace(s[|s| - 1]) then
      var t := s[..|s| - 1];
      var r := RStrip(t);
      assert r == s[..|r|] by {
        assert t[..|r|] == s[..|r|];
      }
      assert AllSpace(s[|r|..]) by {
        assert s[|r|..] == t[|r|..] + [s[|s| - 1]];
      }
      r
    else s
  }

  /** `s.strip()`: the longest infix of `s` without whitespace at either end. */
  function Strip(s: string): (r: string)
    ensures |r| <= |s|
    ensures r == [] || (!IsSpace(r[0]) && !IsSpace(r[|r| - 1]))
    ensures r == [] <==> AllSpace(s)
    ensures exists a, b :: 0 <= a <= b <= |s| && r == s[a..b] && AllSpace(s[..a]) && AllSpace(s[b..])
  {
    StripShape(s, LStrip(s), RStrip(LStrip(s)));
    RStrip(LStrip(s))
  }

  /**
   * What the contracts of `LStrip` and `RStrip` give for their composition:
   * `r` is empty exactly when `s` is all whitespace, and it is the infix
   * between a whitespace prefix and a whitespace suffix.
   */
  lemma StripShape(s: string, l: string, r: string)
    requires |l| <= |s| && l == s[|s| - |l|..] && AllSpace(s[..|s| - |l|]) && (l == [] || !IsSpace(l[0]))
    requires |r| <= |l| && r == l[..|r|] && AllSpace(l[|r|..])
    ensures r == [] <==> AllSpace(s)
    ensures exists a, b :: 0 <= a <= b <= |s| && r == s[a..b] && AllSpace(s[..a]) && AllSpace(s[b..])
  {
    var a := |s| - |l|;
    PrefixOfSuffix(s, l, r);
    if r == [] {
      assert l[|r|..] == l;
      AllSpaceAppend(s[..a], l);
      assert s == s[..a] + l;
    } else {
      assert s[a] == l[0];
    }
    assert r == s[a..a + |r|] && AllSpace(s[..a]) && AllSpace(s[a + |r|..]);
  }

  lemma AllSpaceAppend(x: string, y: string)
    ensures AllSpace(x + y) <==> AllSpace(x) && AllSpace(y)
  {
    if AllSpace(x) && AllSpace(y) {
      forall i | 0 <= i < |x + y| ensures IsSpace((x + y)[i]) {
        if i >= |x| {
          assert (x + y)[i] == y[i - |x|];
        }
      }
    }
    if AllSpace(x + y) {
      forall i | 0 <= i < |y| ensures IsSpace(y[i]) {
        assert y[i] == (x + y)[i + |x|];
      }
      forall i | 0 <= i < |x| ensures IsSpace(x[i]) {
        assert x[i] == (x + y)[i];
      }
    }
  }

  /** A prefix `r` of a suffix `l` of `s` is an infix of `s`, and what follows it is the rest of `l`. */
  lemma PrefixOfSuffix(s: string, l: string, r: string)
    requires |l| <= |s| && l == s[|s| - |l|..]
    requires |r| <= |l| && r == l[..|r|]
    ensures r == s[|s| - |l|..|s| - |l| + |r|]
    ensures s[|s| - |l| + |r|..] == l[|r|..]
  {
  }

  /** A string with no whitespace at either end is its own strip. */
  lemma StripIdentity(s: string)
    requires s == [] || (!IsSpace(s[0]) && !IsSpace(s[|s| - 1]))
    ensures Strip(s) == s
  {
  }

  // ---------------------------------------------------------------------
  // Prefixes and substrings

  /** `s.startswith(p)`. */
  predicate StartsWith(s: string, p: string) {
    |p| <= |s| && s[..|p|] == p
  }

  /** `p` occurs in `s` starting at position `i`. */
  predicate OccursAt(p: string, s: string, i: int) {
    0 <= i && i + |p| <= |s| && s[i..i + |p|] == p
  }

  /** `p in s`, computed by scanning `s` from the left. */
  function Contains(s: string, p: string): (r: bool)
    ensures r <==> exists i :: OccursAt(p, s, i)
  {
    if StartsWith(s, p) then
      assert OccursAt(p, s, 0);
      true
    else if |s| == 0 then
      assert forall i :: !OccursAt(p, s, i);
      false
    else
      var rest := Contains(s[1..], p);
      assert forall i :: OccursAt(p, s[1..], i) <==> OccursAt(p, s, i + 1) by {
        forall i ensures OccursAt(p, s[1..], i) <==> OccursAt(p, s, i + 1) {
          if 0 <= i && i + |p| <= |s[1..]| {
            assert s[1..][i..i + |p|] == s[i + 1..i + 1 + |p|];
          }
        }
      }
      assert !OccursAt(p, s, 0);
      assert (exists i :: OccursAt(p, s, i)) ==> exists i :: OccursAt(p, s[1..], i) by {
        if exists i :: OccursAt(p, s, i) {
          var i :| OccursAt(p, s, i);
          assert OccursAt(p, s[1..], i - 1);
        }
      }
      rest
  }

  // ---------------------------------------------------------------------
  // Case folding

  /** Lower-cases ASCII letters and leaves every other character alone. */
  function LowerChar(c: char): char {
    if 'A' <= c <= 'Z' then (c as int + 32) as char else c
  }

  /** `s.lower()` restricted to ASCII case mapping. */
  function Lower(s: string): (r: string)
    ensures |r| == |s|
    ensures forall i :: 0 <= i < |s| ==> r[i] == LowerChar(s[i])
  {
    seq(|s|, i requires 0 <= i < |s| => LowerChar(s[i]))
  }

  /** `p` occurs in `s` at `i` when both are compared with ASCII case folded. */
  predicate CiOccursAt(p: string, s: string, i: int) {
    0 <= i && i + |p| <= |s| && forall k :: 0 <= k < |p| ==> LowerChar(s[i + k]) == LowerChar(p[k])
  }

  /** `p.lower() in s.lower()` is case-insensitive occurrence. */
  lemma LowerContainsIff(s: string, p: string)
    ensures Contains(Lower(s), Lower(p)) <==> exists i :: CiOccursAt(p, s, i)
  {
    var ls, lp := Lower(s), Lower(p);
    forall i ensures OccursAt(lp, ls, i) <==> CiOccursAt(p, s, i) {
      if 0 <= i && i + |p| <= |s| {
        if OccursAt(lp, ls, i) {
          forall k | 0 <= k < |p| ensures LowerChar(s[i + k]) == LowerChar(p[k]) {
            assert ls[i..i + |p|][k] == ls[i + k];
          }
        }
        if CiOccursAt(p, s, i) {
          assert ls[i..i + |p|] == lp;
        }
      }
    }
  }

  // ---------------------------------------------------------------------
  // str.replace

  /**
   * `s.split(sep)`: the pieces between the non-overlapping occurrences of
   * `sep`, found left to right. The first piece is a prefix of `s`.
   */
  function Split(s: string, sep: string): (r: seq<string>)
    requires |sep| > 0
    ensures |r| > 0 && StartsWith(s, r[0])
    decreases |s|
  {
    if StartsWith(s, sep) then [""] + Split(s[|sep|..], sep)
    else if |s| == 0 then [""]
    else
      var rest := Split(s[1..], sep);
      assert [s[0]] + rest[0] == s[..1 + |rest[0]|] by {
        assert rest[0] == s[1..][..|rest[0]|];
      }
      [[s[0]] + rest[0]] + rest[1..]
  }

  /** Joining the pieces of a split with the separator gives the text back. */
  lemma {:induction false} SplitJoinsBack(s: string, sep: string)
    requires |sep| > 0
    ensures Join(Split(s, sep), sep) == s
    decreases |s|
  {
    var r := Split(s, sep);
    if StartsWith(s, sep) {
      SplitJoinsBack(s[|sep|..], sep);
      JoinEmptyHead(Split(s[|sep|..], sep), sep);
      assert s == sep + s[|sep|..];
    } else if |s| > 0 {
      SplitJoinsBack(s[1..], sep);
      JoinGrowsHead(s[0], Split(s[1..], sep), sep);
      assert s == [s[0]] + s[1..];
    }
  }

  /** An empty first piece contributes only the separator after it. */
  lemma JoinEmptyHead(parts: seq<string>, sep: string)
    requires |parts| > 0
    ensures Join([""] + parts, sep) == sep + Join(parts, sep)
  {
    assert ([""] + parts)[1..] == parts;
  }

  /** Prefixing the first piece with `c` prefixes the joined text with `c`. */
  lemma JoinGrowsHead(c: char, parts: seq<string>, sep: string)
    requires |parts| > 0
    ensures Join([[c] + parts[0]] + parts[1..], sep) == [c] + Join(parts, sep)
  {
    var grown := [[c] + parts[0]] + parts[1..];
    if |parts| > 1 {
      assert grown[1..] == parts[1..];
    }
  }

  /** No piece of a split contains the separator. */
  lemma {:induction false} SplitPiecesFree(s: string, sep: string)
    requires |sep| > 0
    ensures forall i, j :: 0 <= i < |Split(s, sep)| ==> !OccursAt(sep, Split(s, sep)[i], j)
    decreases |s|
  {
    var r := Split(s, sep);
    assert forall j :: !OccursAt(sep, "", j);
    if StartsWith(s, sep) {
      var rest := Split(s[|sep|..], sep);
      SplitPiecesFree(s[|sep|..], sep);
      assert forall i :: 0 < i < |r| ==> r[i] == rest[i - 1];
    } else if |s| > 0 {
      var rest := Split(s[1..], sep);
      SplitPiecesFree(s[1..], sep);
      var head := r[0];
      assert head == [s[0]] + rest[0];
      forall j ensures !OccursAt(sep, head, j) {
        if j == 0 && |sep| <= |head| {
          assert head == s[..|head|];
          assert s[..|sep|] == head[..|sep|];
        } else if 0 < j && j + |sep| <= |head| {
          assert head[j..j + |sep|] == rest[0][j - 1..j - 1 + |sep|];
          assert !OccursAt(sep, rest[0], j - 1);
        }
      }
      assert forall i :: 0 < i < |r| ==> r[i] == rest[i];
    }
  }

  /** Parts free of the one-character separator `c` are recovered by splitting their join at `c`. */
  lemma {:induction false} SplitJoin(parts: seq<string>, c: char)
    requires |parts| > 0
    requires forall i :: 0 <= i < |parts| ==> c !in parts[i]
    ensures Split(Join(parts, [c]), [c]) == parts
  {
    if |parts| == 1 {
      SplitPrefix(parts[0], [], c);
      assert parts[0] + [] == parts[0];
    } else {
      var tail := Join(parts[1..], [c]);
      assert Join(parts, [c]) == parts[0] + ([c] + tail);
      SplitPrefix(parts[0], [c] + tail, c);
      assert ([c] + tail)[1..] == tail;
      SplitJoin(parts[1..], c);
      assert parts[0] + "" == parts[0];
      assert parts == [parts[0]] + parts[1..];
    }
  }

  /** Text before the first `c` becomes part of the first piece. */
  lemma {:induction false} SplitPrefix(x: string, t: string, c: char)
    requires c !in x
    requires t == [] || t[0] == c
    ensures var st := Split(t, [c]);
      Split(x + t, [c]) == [x + st[0]] + st[1..]
    decreases |x|
  {
    if |x| > 0 {
      assert (x + t)[1..] == x[1..] + t;
      assert !StartsWith(x + t, [c]) by {
        assert (x + t)[0] == x[0];
      }
      SplitPrefix(x[1..], t, c);
      assert [x[0]] + (x[1..] + Split(t, [c])[0]) == x + Split(t, [c])[0];
    } else {
      var st := Split(t, [c]);
      assert x + t == t && x + st[0] == st[0];
      assert [st[0]] + st[1..] == st;
    }
  }

  /**
   * `s.replace(pat, rep)`: every non-overlapping occurrence, scanning left
   * to right. For a non-empty pattern this is `rep.join(s.split(pat))`.
   */
  function ReplaceAll(s: string, pat: string, rep: string): (r: string)
    ensures !Contains(s, pat) && |pat| > 0 ==> r == s
    ensures |pat| > 0 ==> r == Join(Split(s, pat), rep)
    decreases |s|
  {
    if |pat| == 0 then
      if |s| == 0 then rep else rep + [s[0]] + ReplaceAll(s[1..], pat, rep)
    else if StartsWith(s, pat) then
      assert OccursAt(pat, s, 0);
      var rest := Split(s[|pat|..], pat);
      assert Join([""] + rest, rep) == rep + Join(rest, rep) by {
        assert ([""] + rest)[1..] == rest;
      }
      rep + ReplaceAll(s[|pat|..], pat, rep)
    else if |s| == 0 then
      s
    else
      var rest := Split(s[1..], pat);
      assert Join([[s[0]] + rest[0]] + rest[1..], rep) == [s[0]] + Join(rest, rep) by {
        if |rest| > 1 {
          assert ([[s[0]] + rest[0]] + rest[1..])[1..] == rest[1..];
        }
      }
      assert !Contains(s, pat) ==> !Contains(s[1..], pat) by {
        if Contains(s[1..], pat) {
          var i :| OccursAt(pat, s[1..], i);
          assert s[1..][i..i + |pat|] == s[i + 1..i + 1 + |pat|];
          assert OccursAt(pat, s, i + 1);
        }
      }
      [s[0]] + ReplaceAll(s[1..], pat, rep)
  }

  // ---------------------------------------------------------------------
  // str.join

  /** `sep.join(parts)`. */
  function Join(parts: seq<string>, sep: string): string {
    if |parts| == 0 then []
    else if |parts| == 1 then parts[0]
    else parts[0] + sep + Join(parts[1..], sep)
  }

  /** The number of occurrences of `c` in `s`. */
  function CountChar(s: string, c: char): nat {
    if |s| == 0 then 0 else (if s[0] == c then 1 else 0) + CountChar(s[1..], c)
  }

  lemma {:induction false} CountCharAppend(a: string, b: string, c: char)
    ensures CountChar(a + b, c) == CountChar(a, c) + CountChar(b, c)
  {
    if |a| == 0 {
      assert a + b == b;
    } else {
      assert (a + b)[1..] == a[1..] + b;
      CountCharAppend(a[1..], b, c);
    }
  }

  /**
   * Joining parts free of the one-character separator `c` yields exactly one
   * `c` between neighbours, so the parts can be counted back from the result.
   */
  lemma {:induction false} JoinSeparators(parts: seq<string>, c: char)
    requires |parts| > 0
    requires forall i :: 0 <= i < |parts| ==> CountChar(parts[i], c) == 0
    ensures CountChar(Join(parts, [c]), c) == |parts| - 1
  {
    if |parts| > 1 {
      JoinSeparators(parts[1..], c);
      assert parts[1..][0] == parts[1];
      CountCharAppend(parts[0] + [c], Join(parts[1..], [c]), c);
      CountCharAppend(parts[0], [c], c);
      assert CountChar([c], c) == 1 by {
        assert [c][1..] == [];
      }
    }
  }

  // ---------------------------------------------------------------------
  // int(str) and str(int)

  predicate IsDigit(c: char) {
    '0' <= c <= '9'
  }

  /**
   * The digit part Python's `int()` accepts in base 10 (ASCII digits only):
   * starts with a digit, and every underscore sits between two digits.
   */
  predicate ValidDigits(t: string) {
    && |t| > 0
    && IsDigit(t[0])
    && forall i :: 0 <= i < |t| ==> IsDigit(t[i]) || (t[i] == '_' && i + 1 < |t| && IsDigit(t[i + 1]))
  }

  function DigitsValue(t: string): nat {
    if |t| == 0 then 0
    else if t[|t| - 1] == '_' then DigitsValue(t[..|t| - 1])
    else DigitsValue(t[..|t| - 1]) * 10 + (if IsDigit(t[|t| - 1]) then t[|t| - 1] as int - '0' as int else 0)
  }

  /**
   * `int(s)`: surrounding whitespace is ignored, an optional sign is read,
   * and the rest must be digits; `None` stands for the `ValueError`.
   */
  function ParseInt(s: string): (r: Option<int>)
    ensures Strip(s) == [] ==> r == None
    ensures var t := Strip(s);
      r.Some? <==> ValidDigits(t) || (|t| > 0 && (t[0] == '-' || t[0] == '+') && ValidDigits(t[1..]))
    ensures var t := Strip(s);
      r.Some? ==> (r.value < 0 ==> t[0] == '-') && (|t| > 0 && t[0] == '-' ==> r.value <= 0)
  {
    var t := Strip(s);
    if |t| == 0 then None
    else if t[0] == '-' || t[0] == '+' then
      var body := t[1..];
      var v: int := DigitsValue(body);
      if ValidDigits(body) then Some(if t[0] == '-' then -v else v) else None
    else if ValidDigits(t) then Some(DigitsValue(t))
    else None
  }

  function DigitChar(d: nat): char
    requires d < 10
  {
    ('0' as int + d) as char
  }

  /** `str(n)` for a natural number. */
  function NatToString(n: nat): (r: string)
    ensures |r| > 0
    ensures forall i :: 0 <= i < |r| ==> IsDigit(r[i])
  {
    if n < 10 then [DigitChar(n)] else NatToString(n / 10) + [DigitChar(n % 10)]
  }

  /** `str(n)` for any integer. */
  function IntToString(n: int): (r: string)
    ensures |r| > 0
    ensures r[0] == '-' <==> n < 0
  {
    if n < 0 then "-" + NatToString(-n) else NatToString(n)
  }

  lemma {:induction false} NatToStringValue(n: nat)
    ensures ValidDigits(NatToString(n))
    ensures DigitsValue(NatToString(n)) == n
  {
    var s := NatToString(n);
    if n >= 10 {
      NatToStringValue(n / 10);
      assert s[..|s| - 1] == NatToString(n / 10);
    }
  }

  /** Rendering an integer with `str` and reading it back with `int` is the identity. */
  lemma IntToStringRoundTrip(n: int)
    ensures ParseInt(IntToString(n)) == Some(n)
  {
    var s := IntToString(n);
    var m: nat := if n < 0 then -n else n;
    var d := NatToString(m);
    NatToStringValue(m);
    assert IsDigit(d[|d| - 1]);
    assert !IsSpace(s[|s| - 1]) by {
      assert s[|s| - 1] == d[|d| - 1];
    }
    assert !IsSpace(s[0]) by {
      if n >= 0 {
        assert IsDigit(d[0]);
      }
    }
    StripIdentity(s);
    if n < 0 {
      assert s[1..] == d;
    } else {
      assert s[0] != '-' && s[0] != '+' by {
        assert IsDigit(d[0]);
      }
    }
  }

  /** `str` is injective on integers. */
  lemma IntToStringInjective(a: int, b: int)
    requires IntToString(a) == IntToString(b)
    ensures a == b
  {
    IntToStringRoundTrip(a);
    IntToStringRoundTrip(b);
  }

  // ---------------------------------------------------------------------
  // SQLite LIKE

  /**
   * SQLite's `s LIKE p` without an ESCAPE clause: `%` matches any run of
   * characters, `_` any one character, and letters compare with ASCII case
   * folded.
   */
  predicate Like(s: string, p: string)
    decreases |s| + |p|
  {
    if |p| == 0 then |s| == 0
    else if p[0] == '%' then Like(s, p[1..]) || (|s| > 0 && Like(s[1..], p))
    else if |s| == 0 then false
    else if p[0] == '_' then Like(s[1..], p[1..])
    else LowerChar(s[0]) == LowerChar(p[0]) && Like(s[1..], p[1..])
  }

  predicate NoWildcards(p: string) {
    forall i :: 0 <= i < |p| ==> p[i] != '%' && p[i] != '_'
  }

  lemma {:induction false} LikePercentAll(s: string)
    ensures Like(s, "%")
    decreases |s|
  {
    assert "%"[1..] == "";
    if |s| > 0 {
      LikePercentAll(s[1..]);
    }
  }

  /** For a wildcard-free `p`, `t LIKE p || '%'` says that `t` starts with `p`, case folded. */
  lemma {:induction false} LikePrefix(t: string, p: string)
    requires NoWildcards(p)
    ensures Like(t, p + "%") <==> CiOccursAt(p, t, 0)
    decreases |p|
  {
    if |p| == 0 {
      assert p + "%" == "%";
      LikePercentAll(t);
    } else {
      assert (p + "%")[0] == p[0];
      assert (p + "%")[1..] == p[1..] + "%";
      if |t| > 0 {
        LikePrefix(t[1..], p[1..]);
        if CiOccursAt(p[1..], t[1..], 0) && LowerChar(t[0]) == LowerChar(p[0]) {
          forall k | 0 <= k < |p| ensures LowerChar(t[k]) == LowerChar(p[k]) {
            if k > 0 {
              assert t[1..][k - 1] == t[k];
              assert p[1..][k - 1] == p[k];
            }
          }
        }
        if CiOccursAt(p, t, 0) {
          forall k | 0 <= k < |p| - 1 ensures LowerChar(t[1..][k]) == LowerChar(p[1..][k]) {
            assert LowerChar(t[k + 1]) == LowerChar(p[k + 1]);
          }
        }
      }
    }
  }

  /** `s LIKE '%' || q` holds iff some suffix of `s` matches `q`. */
  lemma {:induction false} LikeLeadingPercent(s: string, q: string)
    ensures Like(s, "%" + q) <==> exists i :: 0 <= i <= |s| && Like(s[i..], q)
    decreases |s|
  {
    var p := "%" + q;
    assert p[1..] == q;
    assert s[0..] == s;
    if |s| > 0 {
      LikeLeadingPercent(s[1..], q);
      forall i | 0 <= i <= |s[1..]| ensures s[1..][i..] == s[i + 1..] { }
      if exists i :: 0 <= i <= |s| && Like(s[i..], q) {
        var i :| 0 <= i <= |s| && Like(s[i..], q);
        if i > 0 {
          assert s[1..][i - 1..] == s[i..];
        }
      }
    }
  }

  /**
   * `content LIKE '%' || search || '%'` with a search text free of `%` and
   * `_` is case-insensitive (ASCII) occurrence of the search text.
   */
  lemma LikeContainsIff(s: string, q: string)
    requires NoWildcards(q)
    ensures Like(s, "%" + q + "%") <==> exists i :: CiOccursAt(q, s, i)
  {
    assert "%" + q + "%" == "%" + (q + "%");
    LikeLeadingPercent(s, q + "%");
    forall i | 0 <= i <= |s| ensures Like(s[i..], q + "%") <==> CiOccursAt(q, s, i) {
      LikePrefix(s[i..], q);
      if CiOccursAt(q, s[i..], 0) {
        forall k | 0 <= k < |q| ensures LowerChar(s[i + k]) == LowerChar(q[k]) {
          assert s[i..][k] == s[i + k];
        }
      }
      if CiOccursAt(q, s, i) {
        forall k | 0 <= k < |q| ensures LowerChar(s[i..][k]) == LowerChar(q[k]) {
          assert s[i..][k] == s[i + k];
        }
      }
    }
    if exists i :: CiOccursAt(q, s, i) {
      var i :| CiOccursAt(q, s, i);
      assert 0 <= i <= |s|;
    }
  }

  /** `str(n)` never contains an underscore. */
  lemma NoUnderscore(n: int)
    ensures '_' !in IntToString(n)
  {
    var m: nat := if n < 0 then -n else n;
    assert forall i :: 0 <= i < |NatToString(m)| ==> IsDigit(NatToString(m)[i]);
    if n < 0 {
      assert IntToString(n) == "-" + NatToString(m);
    }
  }

  /** In `a + "_" + x` with no `_` in `a`, the first `_` sits right after `a`. */
  lemma UnderscoreAt(a: string, x: string)
    requires '_' !in a
    ensures forall i :: 0 <= i < |a| ==> (a + "_" + x)[i] != '_'
    ensures (a + "_" + x)[|a|] == '_'
  {
    forall i | 0 <= i < |a| ensures (a + "_" + x)[i] != '_' {
      assert (a + "_" + x)[i] == a[i];
    }
  }

  /** Texts free of `_` followed by `_` can be split apart again. */
  lemma SplitAtUnderscore(a: string, b: string, x: string, y: string)
    requires '_' !in a && '_' !in b
    requires a + "_" + x == b + "_" + y
    ensures a == b && x == y
  {
    var u, v := a + "_" + x, b + "_" + y;
    UnderscoreAt(a, x);
    UnderscoreAt(b, y);
    assert |a| == |b|;
    assert a == u[..|a|] && b == v[..|b|];
    assert x == u[|a| + 1..] && y == v[|b| + 1..];
  }

  // ---------------------------------------------------------------------
  // String ordering

  /** `a <= b` on Python strings: lexicographic by code point, a prefix first. */
  predicate LexLe(a: string, b: string)
    decreases |a|
  {
    |a| == 0 || (|b| > 0 && (a[0] < b[0] || (a[0] == b[0] && LexLe(a[1..], b[1..]))))
  }

  lemma {:induction false} LexLeTotal(a: string, b: string)
    ensures LexLe(a, b) || LexLe(b, a)
    decreases |a|
  {
    if |a| > 0 && |b| > 0 && a[0] == b[0] {
      LexLeTotal(a[1..], b[1..]);
    }
  }

  lemma {:induction false} LexLeTrans(a: string, b: string, c: string)
    requires LexLe(a, b) && LexLe(b, c)
    ensures LexLe(a, c)
    decreases |a|
  {
    if |a| > 0 && a[0] == b[0] && b[0] == c[0] {
      LexLeTrans(a[1..], b[1..], c[1..]);
    }
  }
}
