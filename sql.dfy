/** The parts of SQLite's semantics that the attorney database relies on:
    the values a statement binds, the `LIKE` operator, and the ordering
    `ORDER BY` uses for text columns that may be `NULL`. */
module Sql {
  import opened Wrappers
  import opened Strings

  /** A value bound to a statement parameter: Python's `None`, an `int`
      (a `bool` binds as 0 or 1) or a `str`. */
  datatype SqlValue = Null | Int(i: int) | Str(s: string)

  function TextOrNull(v: Option<string>): SqlValue {
    match v
    case None => Null
    case Some(s) => Str(s)
  }

  // ---------------------------------------------------------------------
  // LIKE

  /** Characters compared by `LIKE`: SQLite folds the case of ASCII letters
      only. */
  predicate LikeCharEq(c: char, p: char) {
    ToLower(c) == ToLower(p)
  }

  /** `s LIKE p` with SQLite's default rules and no `ESCAPE` clause: `%`
      matches any run of characters, `_` any one character, and every other
      pattern character itself up to ASCII case. */
  function Like(s: string, p: string): bool
    decreases |p|, |s|
  {
    if p == [] then s == []
    else if p[0] == '%' then Like(s, p[1..]) || (s != [] && Like(s[1..], p))
    else s != [] && (p[0] == '_' || LikeCharEq(s[0], p[0])) && Like(s[1..], p[1..])
  }

  /** The pattern the search builds from a filter value: the value between
      two `%`. */
  function Surrounded(x: string): string {
    "%" + x + "%"
  }

  predicate NoWildcards(x: string) {
    forall k :: 0 <= k < |x| ==> x[k] != '%' && x[k] != '_'
  }

  /** `x` occurs at `i` in `s` up to ASCII case. */
  predicate FoldedAt(s: string, i: int, x: string) {
    0 <= i && i + |x| <= |s| && forall k :: 0 <= k < |x| ==> LikeCharEq(s[i + k], x[k])
  }

  /** A lone `%` matches everything. */
  lemma {:induction false} LikeAnything(s: string)
    ensures Like(s, "%")
    decreases |s|
  {
    assert "%"[1..] == [];
    if s != [] {
      LikeAnything(s[1..]);
    }
  }

  /** A wildcard-free `x` followed by `%` matches exactly the texts that
      start with `x` up to case. */
  lemma {:induction false} LikePrefix(s: string, x: string)
    requires NoWildcards(x)
    ensures Like(s, x + "%") <==> FoldedAt(s, 0, x)
    decreases |x|
  {
    var p := x + "%";
    if x == [] {
      assert p == "%";
      LikeAnything(s);
    } else {
      assert p[0] == x[0] && p[1..] == x[1..] + "%";
      assert NoWildcards(x[1..]);
      if s == [] {
      } else {
        LikePrefix(s[1..], x[1..]);
        if FoldedAt(s[1..], 0, x[1..]) && LikeCharEq(s[0], x[0]) {
          forall k | 0 <= k < |x| ensures LikeCharEq(s[k], x[k]) {
            if k > 0 { assert s[k] == s[1..][k - 1] && x[k] == x[1..][k - 1]; }
          }
        }
        if FoldedAt(s, 0, x) {
          forall k | 0 <= k < |x[1..]| ensures LikeCharEq(s[1..][k], x[1..][k]) {
            assert s[1..][k] == s[k + 1] && x[1..][k] == x[k + 1];
          }
        }
      }
    }
  }

  /** A leading `%` lets the rest of the pattern match any suffix. */
  lemma {:induction false} LikeSomeSuffix(s: string, q: string)
    ensures Like(s, "%" + q) <==> exists i :: 0 <= i <= |s| && Like(s[i..], q)
    decreases |s|
  {
    var p := "%" + q;
    assert p[0] == '%' && p[1..] == q;
    assert s[0..] == s;
    if s != [] {
      LikeSomeSuffix(s[1..], q);
      if exists i :: 0 <= i <= |s[1..]| && Like(s[1..][i..], q) {
        var i :| 0 <= i <= |s[1..]| && Like(s[1..][i..], q);
        assert s[1..][i..] == s[i + 1..];
      }
      if exists i :: 0 <= i <= |s| && Like(s[i..], q) {
        var i :| 0 <= i <= |s| && Like(s[i..], q);
        if i > 0 {
          assert s[1..][i - 1..] == s[i..];
        }
      }
    }
  }

  lemma FoldedAtSuffix(s: string, i: int, x: string)
    requires 0 <= i <= |s|
    ensures FoldedAt(s[i..], 0, x) <==> FoldedAt(s, i, x)
  {
    if FoldedAt(s[i..], 0, x) {
      forall k | 0 <= k < |x| ensures LikeCharEq(s[i + k], x[k]) {
        assert s[i..][k] == s[i + k];
      }
    }
    if FoldedAt(s, i, x) {
      forall k | 0 <= k < |x| ensures LikeCharEq(s[i..][k], x[k]) {
        assert s[i..][k] == s[i + k];
      }
    }
  }

  /** The search's `LIKE '%x%'` filter, for a value without wildcards, is a
      case-insensitive (ASCII) substring test. */
  lemma LikeContains(s: string, x: string)
    requires NoWildcards(x)
    ensures Like(s, Surrounded(x)) <==> exists i :: FoldedAt(s, i, x)
  {
    assert Surrounded(x) == "%" + (x + "%");
    LikeSomeSuffix(s, x + "%");
    if Like(s, Surrounded(x)) {
      var i :| 0 <= i <= |s| && Like(s[i..], x + "%");
      LikePrefix(s[i..], x);
      FoldedAtSuffix(s, i, x);
    }
    if exists i :: FoldedAt(s, i, x) {
      var i :| FoldedAt(s, i, x);
      FoldedAtSuffix(s, i, x);
      LikePrefix(s[i..], x);
    }
  }

  /** The filter value is not escaped: a value of `_` matches every
      non-empty text. */
  lemma LikeUnderscore(s: string)
    ensures Like(s, Surrounded("_")) <==> s != []
  {
    assert Surrounded("_") == "%" + "_%";
    LikeSomeSuffix(s, "_%");
    if s != [] {
      assert "_%"[0] == '_' && "_%"[1..] == "%";
      LikeAnything(s[1..]);
      assert s[0..] == s;
    }
    if Like(s, Surrounded("_")) {
      var i :| 0 <= i <= |s| && Like(s[i..], "_%");
    }
  }

  // ---------------------------------------------------------------------
  // ORDER BY

  /** SQLite's `BINARY` collation: an unequal first differing character
      decides, and a proper prefix sorts first.  (Comparing the UTF-8 bytes,
      as SQLite does, orders code points the same way.) */
  predicate TextLe(a: string, b: string)
    decreases |a|
  {
    a == [] || (b != [] && (a[0] < b[0] || (a[0] == b[0] && TextLe(a[1..], b[1..]))))
  }

  lemma {:induction false} TextLeTotal(a: string, b: string)
    ensures TextLe(a, b) || TextLe(b, a)
    decreases |a|
  {
    if a != [] && b != [] && a[0] == b[0] {
      TextLeTotal(a[1..], b[1..]);
    }
  }

  lemma {:induction false} TextLeTrans(a: string, b: string, c: string)
    requires TextLe(a, b) && TextLe(b, c)
    ensures TextLe(a, c)
    decreases |a|
  {
    if a != [] && b != [] && c != [] && a[0] == b[0] && b[0] == c[0] {
      TextLeTrans(a[1..], b[1..], c[1..]);
    }
  }

  lemma {:induction false} TextLeAntisymmetric(a: string, b: string)
    requires TextLe(a, b) && TextLe(b, a)
    ensures a == b
    decreases |a|
  {
    if a != [] {
      TextLeAntisymmetric(a[1..], b[1..]);
      assert a == [a[0]] + a[1..] && b == [b[0]] + b[1..];
    }
  }

  /** Ascending order of a text column: `NULL` sorts before every text. */
  predicate NullsFirstLe(a: Option<string>, b: Option<string>) {
    a.None? || (b.Some? && TextLe(a.value, b.value))
  }

  lemma NullsFirstTotal(a: Option<string>, b: Option<string>)
    ensures NullsFirstLe(a, b) || NullsFirstLe(b, a)
  {
    if a.Some? && b.Some? {
      TextLeTotal(a.value, b.value);
    }
  }

  lemma NullsFirstTrans(a: Option<string>, b: Option<string>, c: Option<string>)
    requires NullsFirstLe(a, b) && NullsFirstLe(b, c)
    ensures NullsFirstLe(a, c)
  {
    if a.Some? {
      TextLeTrans(a.value, b.value, c.value);
    }
  }

  lemma NullsFirstAntisymmetric(a: Option<string>, b: Option<string>)
    requires NullsFirstLe(a, b) && NullsFirstLe(b, a)
    ensures a == b
  {
    if a.Some? {
      TextLeAntisymmetric(a.value, b.value);
    }
  }

  // ---------------------------------------------------------------------
  // LIMIT

  /** `LIMIT n` keeps the first `n` rows; a negative `n` keeps them all. */
  function Limited<T>(rows: seq<T>, n: int): (r: seq<T>)
    ensures 0 <= n ==> |r| == (if n < |rows| then n else |rows|)
    ensures n < 0 ==> r == rows
    ensures r == rows[..|r|]
  {
    if n < 0 || |rows| <= n then rows else rows[..n]
  }

  // ---------------------------------------------------------------------
  // Integer affinity

  function DigitValue(c: char): nat
    requires IsDigit(c)
  {
    c as int - '0' as int
  }

  /** The value of a run of ASCII digits, read in decimal. */
  function DigitsValue(s: string): nat
    requires AllDigits(s)
  {
    if s == [] then 0 else DigitsValue(s[..|s| - 1]) * 10 + DigitValue(s[|s| - 1])
  }

  /** The decimal numeral of `n`, without leading zeros, as Python's `str`
      writes it. */
  function Decimal(n: nat): (s: string)
    ensures |s| >= 1 && AllDigits(s) && (s[0] == '0' ==> s == "0")
  {
    if n < 10 then [('0' as int + n) as char]
    else Decimal(n / 10) + [('0' as int + n % 10) as char]
  }

  /** `str(i)` for an `int`. */
  function IntText(i: int): string {
    if i < 0 then "-" + Decimal(-i) else Decimal(i)
  }

  /** The integer a text stands for under integer affinity: an optional
      sign followed by one or more ASCII digits. */
  function IntegerText(s: string): (r: Option<int>)
    ensures r.Some? ==> s != [] && AllDigits(if s[0] == '+' || s[0] == '-' then s[1..] else s)
    ensures r.Some? && 0 < |s| && s[0] == '-' ==> r.value <= 0
    ensures r.Some? && !(0 < |s| && s[0] == '-') ==> r.value >= 0
  {
    if s == [] then None
    else if s[0] == '+' || s[0] == '-' then
      if |s| >= 2 && AllDigits(s[1..]) then
        Some(if s[0] == '-' then -(DigitsValue(s[1..]) as int) else DigitsValue(s[1..]))
      else None
    else if AllDigits(s) then Some(DigitsValue(s))
    else None
  }

  /** Reading back a numeral gives the number it was written from. */
  lemma {:induction false} DecimalValue(n: nat)
    ensures DigitsValue(Decimal(n)) == n
    decreases n
  {
    if n >= 10 {
      var s := Decimal(n);
      DecimalValue(n / 10);
      assert s[..|s| - 1] == Decimal(n / 10);
    }
  }

  /** A text written by `str` from an integer converts back to it. */
  lemma IntTextRoundTrip(i: int)
    ensures IntegerText(IntText(i)) == Some(i)
  {
    if i < 0 {
      DecimalValue(-i);
      assert IntText(i)[1..] == Decimal(-i);
    } else {
      DecimalValue(i);
    }
  }

  /** The value an `INTEGER PRIMARY KEY` accepts: an integer, or a text
      that converts to one; `NULL` and any other text are a datatype
      mismatch. */
  function RowidOf(v: SqlValue): Option<int> {
    match v
    case Null => None
    case Int(i) => Some(i)
    case Str(s) => IntegerText(s)
  }
}
