/**
 * The slice of PHP the plugin relies on: decoded JSON values, `empty()`,
 * the `(string)` cast, and the string and array builtins `strpos`,
 * `str_replace`, `untrailingslashit` and `array_diff`.
 */
module Php {

  datatype Option<T> = None | Some(value: T)

  /**
   * A PHP value as `json_decode($text, true)` produces it. A PHP array
   * (list or object alike) is a map from key to value; integer keys are
   * held in their canonical decimal form, which is how PHP itself treats
   * the keys `3` and `"3"` (the same key). Floats are not modelled.
   */
  datatype Json =
    | Null
    | Bool(b: bool)
    | Int(i: int)
    | Str(s: string)
    | Arr(entries: map<string, Json>)

  /** PHP's `empty()` on a string: true for "" and "0". */
  predicate EmptyString(s: string) {
    s == "" || s == "0"
  }

  /** PHP's `empty()`: null, false, 0, "", "0" and the empty array. */
  predicate Empty(v: Json) {
    match v
    case Null => true
    case Bool(b) => !b
    case Int(i) => i == 0
    case Str(s) => EmptyString(s)
    case Arr(m) => |m| == 0
  }

  /** PHP's `isset($v[$key])` on a value that may or may not be an array. */
  predicate IsSetIn(v: Json, key: string) {
    v.Arr? && key in v.entries && v.entries[key] != Null
  }

  predicate IsDigit(c: char) {
    '0' <= c <= '9'
  }

  /** The value of a decimal digit character. */
  function DigitValue(c: char): int {
    c as int - '0' as int
  }

  /** The number a string of decimal digits denotes, read most significant digit first. */
  function DecimalValue(s: string): int
    decreases |s|
  {
    if s == [] then 0 else DecimalValue(s[..|s| - 1]) * 10 + DigitValue(s[|s| - 1])
  }

  function Digit(d: nat): (c: char)
    requires d < 10
    ensures IsDigit(c)
    ensures DigitValue(c) == d
  {
    "0123456789"[d]
  }

  /** Decimal notation of a natural number, as PHP writes an integer: digits that denote `n`. */
  function DecimalNat(n: nat): (s: string)
    ensures |s| > 0
    ensures forall k :: 0 <= k < |s| ==> IsDigit(s[k])
    ensures DecimalValue(s) == n
  {
    if n < 10 then
      assert [Digit(n)][..0] == [];
      [Digit(n)]
    else
      var s := DecimalNat(n / 10) + [Digit(n % 10)];
      assert s[..|s| - 1] == DecimalNat(n / 10);
      s
  }

  /**
   * PHP's `(string)` cast of an integer: the digits of its magnitude,
   * preceded by `-` when it is negative.
   */
  function Decimal(i: int): (s: string)
    ensures |s| > 0
    ensures i >= 0 ==> (forall k :: 0 <= k < |s| ==> IsDigit(s[k])) && DecimalValue(s) == i
    ensures i < 0 ==> s[0] == '-' && (forall k :: 1 <= k < |s| ==> IsDigit(s[k])) && DecimalValue(s[1..]) == -i
  {
    if i < 0 then
      var s := "-" + DecimalNat(-i);
      assert s[1..] == DecimalNat(-i);
      s
    else DecimalNat(i)
  }

  /** PHP's `(string)` cast, the comparison `array_diff` uses. */
  function StrVal(v: Json): string {
    match v
    case Null => ""
    case Bool(b) => if b then "1" else ""
    case Int(i) => Decimal(i)
    case Str(s) => s
    case Arr(_) => "Array"
  }

  /**
   * `array_diff($a, $remove)`: the entries of `$a` whose string form is not
   * among `$remove`, each kept under its original key.
   */
  function ArrayDiff(a: map<string, Json>, remove: set<string>): (r: map<string, Json>)
    ensures r.Keys <= a.Keys
    ensures forall k :: k in r ==> r[k] == a[k]
    ensures forall k :: k in a ==> (k in r <==> StrVal(a[k]) !in remove)
  {
    map k | k in a && StrVal(a[k]) !in remove :: a[k]
  }

  /** `f` occurs in `s` starting at index `i`. */
  predicate OccursAt(s: string, f: string, i: int) {
    0 <= i && i + |f| <= |s| && s[i..i + |f|] == f
  }

  /** `strpos($s, $f) !== false` (PHP 8: the empty needle occurs at 0). */
  predicate Contains(s: string, f: string) {
    exists i :: 0 <= i <= |s| - |f| && OccursAt(s, f, i)
  }

  /** `strpos($s, $prefix) === 0`. */
  predicate StartsWith(s: string, prefix: string) {
    prefix <= s
  }

  lemma {:induction false} ContainsTransitive(s: string, a: string, b: string)
    requires Contains(s, a) && Contains(a, b)
    ensures Contains(s, b)
  {
    var i :| 0 <= i <= |s| - |a| && OccursAt(s, a, i);
    var j :| 0 <= j <= |a| - |b| && OccursAt(a, b, j);
    forall k | 0 <= k < |b| ensures s[i + j + k] == b[k] {
      assert b[k] == a[j + k] == s[i + j + k];
    }
    assert OccursAt(s, b, i + j);
  }

  predicate IsSlash(c: char) {
    c == '/' || c == '\\'
  }

  /**
   * WordPress's `untrailingslashit`, which is `rtrim($s, '/\\')`: the
   * longest prefix of `s` that does not end in a forward or back slash.
   */
  function Untrailingslashit(s: string): (r: string)
    ensures r <= s
    ensures r == [] || !IsSlash(r[|r| - 1])
    ensures forall k :: |r| <= k < |s| ==> IsSlash(s[k])
    decreases |s|
  {
    if |s| > 0 && IsSlash(s[|s| - 1]) then Untrailingslashit(s[..|s| - 1]) else s
  }

  /**
   * `str_replace($find, $rep, $s)` for one search string: a left-to-right
   * scan that replaces each non-overlapping occurrence of `find`. An empty
   * search string leaves the subject alone.
   */
  function StrReplace(s: string, find: string, rep: string): string
    decreases |s|
  {
    if |find| == 0 || |s| < |find| then s
    else if s[..|find|] == find then rep + StrReplace(s[|find|..], find, rep)
    else [s[0]] + StrReplace(s[1..], find, rep)
  }

  /** The pieces between the occurrences of `find` that `StrReplace` replaces. */
  function Pieces(s: string, find: string): (ps: seq<string>)
    requires |find| > 0
    ensures |ps| > 0
    decreases |s|
  {
    if |s| < |find| then [s]
    else if s[..|find|] == find then [""] + Pieces(s[|find|..], find)
    else
      var rest := Pieces(s[1..], find);
      [[s[0]] + rest[0]] + rest[1..]
  }

  /** The pieces `ps` joined with `sep` between consecutive pieces. */
  function Join(ps: seq<string>, sep: string): string
    requires |ps| > 0
  {
    if |ps| == 1 then ps[0] else ps[0] + sep + Join(ps[1..], sep)
  }

  lemma {:induction false} JoinFirst(p: string, ps: seq<string>, sep: string)
    requires |ps| > 0
    ensures Join([p + ps[0]] + ps[1..], sep) == p + Join(ps, sep)
  {
    var qs := [p + ps[0]] + ps[1..];
    if |ps| == 1 {
    } else {
      assert qs[1..] == ps[1..];
    }
  }

  /** A piece never holds a whole occurrence of the search string. */
  lemma {:induction false} NoOccurrenceInFirst(c: char, p: string, rest: string, find: string)
    requires |find| > 0
    requires !Contains(p, find)
    requires p <= rest
    requires |rest| + 1 >= |find|
    requires ([c] + rest)[..|find|] != find
    ensures !Contains([c] + p, find)
  {
    var q := [c] + p;
    forall i | 0 <= i <= |q| - |find| ensures !OccursAt(q, find, i) {
      if i == 0 {
        assert q[..|find|] == ([c] + rest)[..|find|];
      } else {
        assert !OccursAt(p, find, i - 1);
        assert q[i..i + |find|] == p[i - 1..i - 1 + |find|];
      }
    }
  }

  /**
   * `str_replace` is exactly "cut at the occurrences, glue back with the
   * replacement": the subject is the pieces joined by `find`, the result is
   * the same pieces joined by `rep`, and no piece holds an occurrence of
   * `find`, so every occurrence in the subject was replaced.
   */
  lemma StrReplaceByPieces(s: string, find: string, rep: string)
    requires |find| > 0
    ensures Join(Pieces(s, find), find) == s
    ensures Join(Pieces(s, find), rep) == StrReplace(s, find, rep)
    ensures forall k :: 0 <= k < |Pieces(s, find)| ==> !Contains(Pieces(s, find)[k], find)
  {
    JoinPieces(s, find, rep);
    PiecesAvoidFind(s, find);
  }

  /** Gluing the pieces back with `find` gives the subject, and with `rep` the result of `StrReplace`. */
  lemma {:induction false} JoinPieces(s: string, find: string, rep: string)
    requires |find| > 0
    ensures Join(Pieces(s, find), find) == s
    ensures Join(Pieces(s, find), rep) == StrReplace(s, find, rep)
    decreases |s|
  {
    var ps := Pieces(s, find);
    if |s| < |find| {
      assert ps == [s];
    } else if s[..|find|] == find {
      var t := s[|find|..];
      JoinPieces(t, find, rep);
      var qs := Pieces(t, find);
      assert ps == [""] + qs;
      assert ps[1..] == qs;
      assert s == find + t;
    } else {
      var t := s[1..];
      JoinPieces(t, find, rep);
      var qs := Pieces(t, find);
      assert ps == [[s[0]] + qs[0]] + qs[1..];
      JoinFirst([s[0]], qs, find);
      JoinFirst([s[0]], qs, rep);
      assert s == [s[0]] + t;
    }
  }

  /** No piece holds an occurrence of `find`. */
  lemma {:induction false} PiecesAvoidFind(s: string, find: string)
    requires |find| > 0
    ensures forall k :: 0 <= k < |Pieces(s, find)| ==> !Contains(Pieces(s, find)[k], find)
    decreases |s|
  {
    var ps := Pieces(s, find);
    if |s| < |find| {
      assert ps == [s];
      assert !Contains(s, find);
    } else if s[..|find|] == find {
      var t := s[|find|..];
      PiecesAvoidFind(t, find);
      var qs := Pieces(t, find);
      assert ps == [""] + qs;
      forall k | 0 <= k < |ps| ensures !Contains(ps[k], find) {
        if k == 0 {
          assert ps[0] == "";
        } else {
          assert ps[k] == qs[k - 1];
        }
      }
    } else {
      var t := s[1..];
      PiecesAvoidFind(t, find);
      var qs := Pieces(t, find);
      assert ps == [[s[0]] + qs[0]] + qs[1..];
      PieceIsPrefix(t, find);
      NoOccurrenceInFirst(s[0], qs[0], t, find);
      forall k | 0 <= k < |ps| ensures !Contains(ps[k], find) {
        if k > 0 { assert ps[k] == qs[k]; }
      }
    }
  }

  /** The first piece is a prefix of the subject. */
  lemma {:induction false} PieceIsPrefix(s: string, find: string)
    requires |find| > 0
    ensures Pieces(s, find)[0] <= s
    decreases |s|
  {
    if |s| < |find| {
    } else if s[..|find|] == find {
    } else {
      PieceIsPrefix(s[1..], find);
    }
  }

  /** A subject without an occurrence of the search string comes back unchanged. */
  lemma {:induction false} StrReplaceAbsent(s: string, find: string, rep: string)
    requires |find| > 0
    requires !Contains(s, find)
    ensures StrReplace(s, find, rep) == s
    decreases |s|
  {
    if |s| >= |find| {
      assert !OccursAt(s, find, 0);
      assert s[..|find|] != find;
      forall i | 0 <= i <= |s[1..]| - |find| ensures !OccursAt(s[1..], find, i) {
        assert !OccursAt(s, find, i + 1);
        assert s[1..][i..i + |find|] == s[i + 1..i + 1 + |find|];
      }
      StrReplaceAbsent(s[1..], find, rep);
      assert s == [s[0]] + s[1..];
    }
  }
}
