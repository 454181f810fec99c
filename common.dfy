/**
  Vocabulary shared by every page of the application: optional values, the
  JavaScript string operations the pages rely on (`trim`, `toLowerCase`,
  `includes`, `split`, `join`) and the two ways the code supplies a default
  (`a || b` on strings and `a ?? b`).
 */
module Common {

  /** A JavaScript value that may be `null`/`undefined`. */
  datatype Option<+T> = None | Some(value: T)

  /** `o ?? d`: the value unless it is null or undefined. */
  function Coalesce<T>(o: Option<T>, d: T): T
  {
    match o
    case Some(v) => v
    case None => d
  }

  /** `s || d` for a string that is always present: the empty string is falsy. */
  function OrStr(s: string, d: string): string
  {
    if s != "" then s else d
  }

  /** `o || d` for an optional string: null, undefined and "" are falsy. */
  function Or(o: Option<string>, d: string): string
  {
    match o
    case Some(s) => OrStr(s, d)
    case None => d
  }

  /** A string is truthy in JavaScript when it is present and not empty. */
  predicate Truthy(o: Option<string>)
  {
    o.Some? && o.value != ""
  }

  lemma OrTruthy(o: Option<string>, d: string)
    ensures Truthy(o) ==> Or(o, d) == o.value
    ensures !Truthy(o) ==> Or(o, d) == d
  {
  }

  // ---------------------------------------------------------------------------
  // String.prototype.trim

  /** ECMAScript WhiteSpace and LineTerminator code points, the set `trim` removes. */
  predicate IsJsSpace(c: char)
  {
    c == '\t' || c == '\n' || c == '\U{000B}' || c == '\U{000C}' || c == '\r' || c == ' '
    || c == '\U{00A0}' || c == '\U{1680}' || ('\U{2000}' <= c <= '\U{200A}')
    || c == '\U{2028}' || c == '\U{2029}' || c == '\U{202F}' || c == '\U{205F}'
    || c == '\U{3000}' || c == '\U{FEFF}'
  }

  predicate AllSpace(s: string)
  {
    forall i :: 0 <= i < |s| ==> IsJsSpace(s[i])
  }

  function TrimStart(s: string): (r: string)
    ensures |r| <= |s|
    ensures r == "" || !IsJsSpace(r[0])
  {
    if |s| == 0 || !IsJsSpace(s[0]) then s else TrimStart(s[1..])
  }

  function TrimEnd(s: string): (r: string)
    ensures |r| <= |s|
    ensures r == "" || !IsJsSpace(r[|r| - 1])
  {
    if |s| == 0 || !IsJsSpace(s[|s| - 1]) then s else TrimEnd(s[..|s| - 1])
  }

  /** `TrimStart` keeps a suffix of the string. */
  lemma {:induction false} TrimStartSuffix(s: string)
    ensures TrimStart(s) == s[|s| - |TrimStart(s)|..]
  {
    if |s| > 0 && IsJsSpace(s[0]) {
      TrimStartSuffix(s[1..]);
    }
  }

  /** `TrimEnd` keeps a prefix of the string. */
  lemma {:induction false} TrimEndPrefix(s: string)
    ensures TrimEnd(s) == s[..|TrimEnd(s)|]
  {
    if |s| > 0 && IsJsSpace(s[|s| - 1]) {
      TrimEndPrefix(s[..|s| - 1]);
    }
  }

  /** What `TrimStart` removes is white space. */
  lemma {:induction false} TrimStartDropsSpace(s: string)
    ensures AllSpace(s[..|s| - |TrimStart(s)|])
  {
    if |s| > 0 && IsJsSpace(s[0]) {
      var tail := s[1..];
      var r := TrimStart(tail);
      assert TrimStart(s) == r;
      TrimStartDropsSpace(tail);
      var dropped := s[..|s| - |r|];
      assert dropped == [s[0]] + tail[..|tail| - |r|];
      forall k | 0 <= k < |dropped| ensures IsJsSpace(dropped[k]) {
        if k > 0 {
          assert dropped[k] == tail[..|tail| - |r|][k - 1];
        }
      }
    }
  }

  /** What `TrimEnd` removes is white space. */
  lemma {:induction false} TrimEndDropsSpace(s: string)
    ensures AllSpace(s[|TrimEnd(s)|..])
  {
    if |s| > 0 && IsJsSpace(s[|s| - 1]) {
      var init := s[..|s| - 1];
      var r := TrimEnd(init);
      assert TrimEnd(s) == r;
      TrimEndDropsSpace(init);
      var dropped := s[|r|..];
      assert dropped == init[|r|..] + [s[|s| - 1]];
      forall k | 0 <= k < |dropped| ensures IsJsSpace(dropped[k]) {
        if k < |dropped| - 1 {
          assert dropped[k] == init[|r|..][k];
        }
      }
    }
  }

  /** `s.trim()` */
  function Trim(s: string): string
  {
    TrimEnd(TrimStart(s))
  }

  /** `!s.trim()`: the string is empty once the white space is removed exactly when it is all white space. */
  lemma TrimBlankIff(s: string)
    ensures Trim(s) == "" <==> AllSpace(s)
  {
    var t := TrimStart(s);
    TrimStartDropsSpace(s);
    TrimEndDropsSpace(t);
    TrimStartSuffix(s);
    TrimEndPrefix(t);
    if Trim(s) == "" {
      assert t[0..] == t;
      assert t == "";
      assert s[..|s| - |t|] == s;
    } else {
      var r := Trim(s);
      assert r[0] == t[0];
      assert t[0] == s[|s| - |t|];
    }
  }

  /** Trimming leaves no white space at either end, and trimming again changes nothing. */
  lemma TrimIdempotent(s: string)
    ensures Trim(s) == "" || (!IsJsSpace(Trim(s)[0]) && !IsJsSpace(Trim(s)[|Trim(s)| - 1]))
    ensures Trim(Trim(s)) == Trim(s)
  {
    var t := TrimStart(s);
    var r := TrimEnd(t);
    assert Trim(s) == r;
    TrimEndPrefix(t);
    if r != "" {
      assert r[0] == t[0];
      assert !IsJsSpace(r[0]) && !IsJsSpace(r[|r| - 1]);
      assert TrimStart(r) == r;
      assert TrimEnd(r) == r;
    } else {
      assert TrimStart(r) == r;
    }
  }

  // ---------------------------------------------------------------------------
  // String.prototype.toLowerCase, on the ASCII letters

  function LowerChar(c: char): char
  {
    if 'A' <= c <= 'Z' then (c as int + 32) as char else c
  }

  /** `s.toLowerCase()`; only ASCII letters change (Thai has no case). */
  function Lower(s: string): (r: string)
    ensures |r| == |s|
    ensures forall i :: 0 <= i < |s| ==> r[i] == LowerChar(s[i])
  {
    seq(|s|, i requires 0 <= i < |s| => LowerChar(s[i]))
  }

  lemma LowerIdempotent(s: string)
    ensures Lower(Lower(s)) == Lower(s)
  {
  }

  // ---------------------------------------------------------------------------
  // String.prototype.includes, indexOf, split and Array.prototype.join

  predicate IsPrefix(p: string, s: string)
  {
    |p| <= |s| && s[..|p|] == p
  }

  /** `t` occurs in `s` at position `i`. */
  predicate OccursAt(s: string, t: string, i: int)
  {
    0 <= i <= |s| - |t| && s[i..i + |t|] == t
  }

  /** `s.includes(t)` */
  predicate Includes(s: string, t: string)
    decreases |s|
  {
    IsPrefix(t, s) || (|s| > 0 && Includes(s[1..], t))
  }

  /** Past the first character, `t` occurs in `s` where it occurs in the rest, one place later. */
  lemma OccursShift(s: string, t: string, i: int)
    requires |s| > 0 && 1 <= i
    ensures OccursAt(s, t, i) <==> OccursAt(s[1..], t, i - 1)
  {
    if i <= |s| - |t| {
      assert s[1..][i - 1..i - 1 + |t|] == s[i..i + |t|];
    }
  }

  /** `t` occurs at the start of `s` exactly when it is a prefix. */
  lemma OccursAtStart(s: string, t: string)
    ensures OccursAt(s, t, 0) <==> IsPrefix(t, s)
  {
    if |t| <= |s| {
      assert s[0..|t|] == s[..|t|];
    }
  }

  /** `includes` holds exactly when `t` occurs at some position of `s`. */
  lemma {:induction false} IncludesIff(s: string, t: string)
    ensures Includes(s, t) <==> exists i :: OccursAt(s, t, i)
    decreases |s|
  {
    OccursAtStart(s, t);
    if IsPrefix(t, s) {
    } else if |s| == 0 {
    } else {
      IncludesIff(s[1..], t);
      forall i | 1 <= i ensures OccursAt(s, t, i) <==> OccursAt(s[1..], t, i - 1) {
        OccursShift(s, t, i);
      }
      if Includes(s[1..], t) {
        var j :| OccursAt(s[1..], t, j);
        assert OccursAt(s, t, j + 1);
      }
    }
  }

  /** The empty query is found in every string. */
  lemma IncludesEmpty(s: string)
    ensures Includes(s, "")
  {
    assert IsPrefix("", s);
  }

  /** `s.indexOf(t)`: the first position where `t` occurs. */
  function IndexOf(s: string, t: string): (r: Option<nat>)
    ensures r.Some? ==> OccursAt(s, t, r.value)
    ensures r.Some? ==> forall j :: 0 <= j < r.value ==> !OccursAt(s, t, j)
    ensures r.None? ==> forall j :: !OccursAt(s, t, j)
    decreases |s|
  {
    OccursAtStart(s, t);
    if IsPrefix(t, s) then Some(0)
    else if |s| == 0 then None
    else
      match IndexOf(s[1..], t)
      case None =>
        assert forall j :: !OccursAt(s, t, j) by {
          forall j | 1 <= j ensures !OccursAt(s, t, j) {
            OccursShift(s, t, j);
          }
        }
        None
      case Some(i) =>
        assert forall j :: 1 <= j <= i + 1 ==> (OccursAt(s, t, j) <==> OccursAt(s[1..], t, j - 1)) by {
          forall j | 1 <= j <= i + 1 ensures OccursAt(s, t, j) <==> OccursAt(s[1..], t, j - 1) {
            OccursShift(s, t, j);
          }
        }
        Some(i + 1)
  }

  /** `xs.join(sep)` */
  function Join(xs: seq<string>, sep: string): string
  {
    if |xs| == 0 then ""
    else if |xs| == 1 then xs[0]
    else xs[0] + sep + Join(xs[1..], sep)
  }

  /** `s.split(sep)` for a non-empty separator. */
  function Split(s: string, sep: string): (parts: seq<string>)
    requires |sep| > 0
    ensures |parts| >= 1
    decreases |s|
  {
    match IndexOf(s, sep)
    case None => [s]
    case Some(i) => [s[..i]] + Split(s[i + |sep|..], sep)
  }

  /** Joining the pieces of a split with the same separator gives back the string. */
  lemma {:induction false} SplitJoin(s: string, sep: string)
    requires |sep| > 0
    ensures Join(Split(s, sep), sep) == s
    decreases |s|
  {
    match IndexOf(s, sep)
    case None =>
    case Some(i) =>
      var rest := s[i + |sep|..];
      var parts := Split(rest, sep);
      SplitJoin(rest, sep);
      SepAt(s, sep, i);
      var all := [s[..i]] + parts;
      assert Split(s, sep) == all;
      assert all[1..] == parts;
      assert Join(all, sep) == s[..i] + sep + Join(parts, sep);
  }

  /** The string is the text before the first separator, the separator and the rest. */
  lemma SepAt(s: string, sep: string, i: nat)
    requires IndexOf(s, sep) == Some(i)
    ensures s == s[..i] + sep + s[i + |sep|..]
  {
    assert OccursAt(s, sep, i);
    assert s == s[..i] + s[i..i + |sep|] + s[i + |sep|..];
  }

  /** An occurrence inside the first `n` characters is an occurrence in the whole string. */
  lemma OccursInPrefix(s: string, t: string, n: nat)
    requires n <= |s|
    ensures forall j :: OccursAt(s[..n], t, j) ==> j + |t| <= n && OccursAt(s, t, j)
  {
    forall j | OccursAt(s[..n], t, j) ensures j + |t| <= n && OccursAt(s, t, j) {
      assert s[..n][j..j + |t|] == s[j..j + |t|];
    }
  }

  /** The text before the first separator does not contain it. */
  lemma HeadFree(s: string, sep: string, i: nat)
    requires |sep| > 0 && IndexOf(s, sep) == Some(i)
    ensures !Includes(s[..i], sep)
  {
    IncludesIff(s[..i], sep);
    OccursInPrefix(s, sep, i);
  }

  /** A string without a separator does not contain it. */
  lemma NoneFree(s: string, sep: string)
    requires IndexOf(s, sep).None?
    ensures !Includes(s, sep)
  {
    IncludesIff(s, sep);
  }

  /** No piece of a split contains the separator. */
  lemma {:induction false} SplitPiecesFree(s: string, sep: string)
    requires |sep| > 0
    ensures forall k :: 0 <= k < |Split(s, sep)| ==> !Includes(Split(s, sep)[k], sep)
    decreases |s|
  {
    match IndexOf(s, sep)
    case None =>
      NoneFree(s, sep);
    case Some(i) =>
      var rest := s[i + |sep|..];
      SplitPiecesFree(rest, sep);
      HeadFree(s, sep, i);
      var parts := Split(s, sep);
      assert parts == [s[..i]] + Split(rest, sep);
      forall k | 0 <= k < |parts| ensures !Includes(parts[k], sep) {
        if k > 0 {
          assert parts[k] == Split(rest, sep)[k - 1];
        }
      }
  }

  // ---------------------------------------------------------------------------
  // Number to decimal string (template literals such as `${index}`)

  predicate IsDigit(c: char)
  {
    '0' <= c <= '9'
  }

  function DigitChar(d: nat): char
    requires d < 10
  {
    ('0' as int + d) as char
  }

  /** `${n}` for a non-negative integer. */
  function NatToString(n: nat): (s: string)
    ensures |s| > 0
    ensures forall i :: 0 <= i < |s| ==> IsDigit(s[i])
  {
    if n < 10 then [DigitChar(n)] else NatToString(n / 10) + [DigitChar(n % 10)]
  }

  /** The value of a string of decimal digits. */
  function DigitsValue(s: string): nat
    requires forall i :: 0 <= i < |s| ==> IsDigit(s[i])
  {
    if |s| == 0 then 0
    else
      assert IsDigit(s[|s| - 1]);
      DigitsValue(s[..|s| - 1]) * 10 + (s[|s| - 1] as int - '0' as int)
  }

  /** Reading back the decimal text of a number gives the number, so distinct numbers get distinct texts. */
  lemma {:induction false} NatToStringRoundTrip(n: nat)
    ensures DigitsValue(NatToString(n)) == n
  {
    if n >= 10 {
      NatToStringRoundTrip(n / 10);
      var s := NatToString(n);
      assert s[..|s| - 1] == NatToString(n / 10);
    }
  }

  lemma NatToStringInjective(m: nat, n: nat)
    ensures NatToString(m) == NatToString(n) ==> m == n
  {
    NatToStringRoundTrip(m);
    NatToStringRoundTrip(n);
  }

  // ---------------------------------------------------------------------------
  // Keys built as `${prefix}<c>${suffix}`

  /** The text after the last `c`, or all of it when there is none. */
  function AfterLast(s: string, c: char): string
  {
    if |s| == 0 then ""
    else if s[|s| - 1] == c then ""
    else AfterLast(s[..|s| - 1], c) + [s[|s| - 1]]
  }

  lemma {:induction false} AfterLastOfJoin(p: string, c: char, a: string)
    requires c !in a
    ensures AfterLast(p + [c] + a, c) == a
  {
    if |a| > 0 {
      var s := p + [c] + a;
      var a' := a[..|a| - 1];
      assert s[..|s| - 1] == p + [c] + a';
      AfterLastOfJoin(p, c, a');
    }
  }

  /** A key `p + c + a` whose suffix does not contain `c` determines both of its parts. */
  lemma JoinAtLastInjective(p1: string, a: string, p2: string, b: string, c: char)
    requires c !in a && c !in b
    requires p1 + [c] + a == p2 + [c] + b
    ensures p1 == p2 && a == b
  {
    var s := p1 + [c] + a;
    AfterLastOfJoin(p1, c, a);
    AfterLastOfJoin(p2, c, b);
    assert p1 == s[..|p1|];
    assert p2 == s[..|p2|];
  }
}
