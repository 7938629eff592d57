/**
 * The three regular expressions of the data processor, as predicates on names.
 *
 * A pattern is built by interpolating selector values into a string; a '.'
 * in such a value is a regex wildcard (any character but a newline) and every
 * other character stands for itself. Python's `re.match` anchors at the start
 * only, `.` never matches '\n', and `$` matches at the end of the name or just
 * before a single trailing newline.
 */
module Patterns {
  import opened Wrappers
  import opened Paths

  datatype Atom = Exactly(c: char) | AnyChar

  /** The pattern a interpolated selector string stands for. */
  function Compile(s: string): (p: seq<Atom>)
    ensures |p| == |s|
    ensures forall k :: 0 <= k < |s| ==> (p[k] == AnyChar <==> s[k] == '.')
    ensures forall k :: 0 <= k < |s| && s[k] != '.' ==> p[k] == Exactly(s[k])
  {
    seq(|s|, k requires 0 <= k < |s| => if s[k] == '.' then AnyChar else Exactly(s[k]))
  }

  predicate AtomMatches(a: Atom, c: char) {
    match a
    case Exactly(x) => c == x
    case AnyChar => c != '\n'
  }

  /** The pattern p matches the characters of s starting at position i. */
  predicate MatchesAt(p: seq<Atom>, s: string, i: nat) {
    i + |p| <= |s| && forall k :: 0 <= k < |p| ==> AtomMatches(p[k], s[i + k])
  }

  predicate NoNewline(s: string, from: nat, to: nat)
    requires from <= to <= |s|
  {
    forall k :: from <= k < to ==> s[k] != '\n'
  }

  /** re.match('.*' + body, name): some newline-free prefix is followed by body. */
  predicate DirNameMatches(body: seq<Atom>, name: string) {
    exists i :: 0 <= i <= |name| && NoNewline(name, 0, i) && MatchesAt(body, name, i)
  }

  /** The run directory pattern `.*_{model}_{mag_method}_{time}_{param_name}_{param}`. */
  function DirBody(model: string, magMethod: string, time: string, paramName: string, param: string): string {
    "_" + model + "_" + magMethod + "_" + time + "_" + paramName + "_" + param
  }

  /** `\.{ext}` followed by `$` at position e, after a newline-free `.*`. */
  predicate EndsAt(prefix: seq<Atom>, ext: seq<Atom>, name: string, e: nat)
    requires e <= |name|
  {
    && |prefix| + 1 + |ext| <= e
    && name[e - |ext| - 1] == '.'
    && MatchesAt(ext, name, e - |ext|)
    && NoNewline(name, |prefix|, e - |ext| - 1)
  }

  /** re.match('{prefix}.*\.{ext}$', name) */
  predicate FileNameMatches(prefix: seq<Atom>, ext: seq<Atom>, name: string) {
    && MatchesAt(prefix, name, 0)
    && (|| EndsAt(prefix, ext, name, |name|)
        || (|name| > 0 && name[|name| - 1] == '\n' && EndsAt(prefix, ext, name, |name| - 1)))
  }

  /** The file name prefix `{type}_{location}_`. */
  function FilePrefix(recordType: string, location: string): string {
    recordType + "_" + location + "_"
  }

  /** Number of ASCII digits at the end of s. */
  function TrailingDigits(s: string): (n: nat)
    ensures n <= |s|
    ensures forall k :: |s| - n <= k < |s| ==> IsDigit(s[k])
    ensures n < |s| ==> !IsDigit(s[|s| - n - 1])
  {
    if s == [] || !IsDigit(s[|s| - 1]) then 0
    else TrailingDigits(s[..|s| - 1]) + 1
  }

  /** The name `$` sees: one trailing newline does not count. */
  function WithoutFinalNewline(name: string): (t: string)
    ensures IsPrefix(t, name) && |name| - 1 <= |t|
  {
    if |name| > 0 && name[|name| - 1] == '\n' then name[..|name| - 1] else name
  }

  /** The number in `run<digits>` at the very end of t, if it ends that way. */
  function RunNumberAtEnd(t: string): Option<nat> {
    var n := TrailingDigits(t);
    assert AllDigits(t[|t| - n..]);
    if 0 < n && n + 3 <= |t| && t[|t| - n - 3] == 'r' && t[|t| - n - 2] == 'u' && t[|t| - n - 1] == 'n'
    then Some(DecimalValue(t[|t| - n..]))
    else None
  }

  /** int(re.compile('run(\d+)$').search(name).group(1)), None when the search fails. */
  function RunNumberOf(name: string): Option<nat> {
    RunNumberAtEnd(WithoutFinalNewline(name))
  }

  /** The list comprehension `[x for x in xs if p(x)]`. */
  function Filter<T>(xs: seq<T>, p: T -> bool): (r: seq<T>)
    ensures |r| <= |xs|
    ensures forall k :: 0 <= k < |r| ==> r[k] in xs && p(r[k])
    ensures forall k :: 0 <= k < |xs| && p(xs[k]) ==> xs[k] in r
  {
    if xs == [] then []
    else (if p(xs[0]) then [xs[0]] else []) + Filter(xs[1..], p)
  }

  /** Index 0 of a list, failing on the empty list as Python's IndexError does. */
  function Head<T>(xs: seq<T>): (r: Option<T>)
    ensures r.Some? <==> xs != []
    ensures r.Some? ==> r.value == xs[0]
  {
    if xs == [] then None else Some(xs[0])
  }

  /** The first element of a filtered list is the first element that passes the
      filter; the filtered list is empty exactly when nothing passes. */
  lemma {:induction false} FilterHead<T>(xs: seq<T>, p: T -> bool)
    ensures Filter(xs, p) == [] <==> forall k :: 0 <= k < |xs| ==> !p(xs[k])
    ensures Filter(xs, p) != [] ==>
      exists i :: 0 <= i < |xs| && xs[i] == Filter(xs, p)[0] && p(xs[i]) &&
        forall j :: 0 <= j < i ==> !p(xs[j])
  {
    if xs != [] {
      FilterHead(xs[1..], p);
      if !p(xs[0]) && Filter(xs, p) != [] {
        var i :| 0 <= i < |xs[1..]| && xs[1..][i] == Filter(xs[1..], p)[0] && p(xs[1..][i]) &&
          forall j :: 0 <= j < i ==> !p(xs[1..][j]);
        assert forall j :: 0 <= j < i + 1 ==> !p(xs[j]) by {
          forall j | 0 <= j < i + 1 ensures !p(xs[j]) {
            if j > 0 { assert xs[j] == xs[1..][j - 1]; }
          }
        }
      }
      if !p(xs[0]) && Filter(xs, p) == [] {
        forall k | 0 <= k < |xs| ensures !p(xs[k]) {
          if k > 0 { assert xs[k] == xs[1..][k - 1]; }
        }
      }
    }
  }

  /** `[x for x in xs if p(x)][0]`: it fails exactly when no element passes,
      and otherwise gives the first element that passes. */
  lemma FirstOf<T>(xs: seq<T>, p: T -> bool)
    ensures Head(Filter(xs, p)).None? <==> forall k :: 0 <= k < |xs| ==> !p(xs[k])
    ensures Head(Filter(xs, p)).Some? ==>
      exists i :: 0 <= i < |xs| && p(xs[i]) && (forall j :: 0 <= j < i ==> !p(xs[j]))
        && Head(Filter(xs, p)).value == xs[i]
  {
    FilterHead(xs, p);
  }

  predicate OccursAt(s: string, lit: string, i: nat) {
    i + |lit| <= |s| && s[i..i + |lit|] == lit
  }

  predicate Contains(s: string, lit: string) {
    exists i :: 0 <= i <= |s| && OccursAt(s, lit, i)
  }

  /** On a name without newlines, the directory pattern matches wherever its text
      occurs literally; when the text has no '.', only there. */
  lemma DirMatchIsContainment(lit: string, name: string)
    requires forall k :: 0 <= k < |name| ==> name[k] != '\n'
    ensures Contains(name, lit) ==> DirNameMatches(Compile(lit), name)
    ensures '.' !in lit ==> (DirNameMatches(Compile(lit), name) ==> Contains(name, lit))
  {
    var p := Compile(lit);
    if Contains(name, lit) {
      var i :| 0 <= i <= |name| && OccursAt(name, lit, i);
      forall k | 0 <= k < |p| ensures AtomMatches(p[k], name[i + k]) {
        assert name[i + k] == name[i..i + |lit|][k];
      }
      assert MatchesAt(p, name, i);
    }
    if '.' !in lit && DirNameMatches(p, name) {
      var i :| 0 <= i <= |name| && NoNewline(name, 0, i) && MatchesAt(p, name, i);
      assert forall k :: 0 <= k < |lit| ==> lit[k] != '.' by {
        forall k | 0 <= k < |lit| ensures lit[k] != '.' { assert lit[k] in lit; }
      }
      assert name[i..i + |lit|] == lit;
      assert OccursAt(name, lit, i);
    }
  }

  /** A '.' in a selector value is a wildcard: `0.35e6` also selects a
      directory whose name has `0135e6` in its place. */
  lemma ParamDotIsWildcard()
    ensures DirNameMatches(Compile(DirBody("M", "H", "T", "P", "0.35e6")), "x_M_H_T_P_0135e6")
  {
    var name := "x_M_H_T_P_0135e6";
    var p := Compile(DirBody("M", "H", "T", "P", "0.35e6"));
    assert MatchesAt(p, name, 1);
    assert NoNewline(name, 0, 1);
  }

  /** On a name without newlines and selector text without '.', a file name
      matches exactly when it starts with `{type}_{location}_` and ends with
      `.{ext}`, the two not overlapping. */
  lemma FileMatchIsPrefixSuffix(pre: string, ext: string, name: string)
    requires forall k :: 0 <= k < |name| ==> name[k] != '\n'
    requires '.' !in pre && '.' !in ext
    ensures FileNameMatches(Compile(pre), Compile(ext), name) <==>
      (|pre| + 1 + |ext| <= |name| && IsPrefix(pre, name) && IsSuffix("." + ext, name))
  {
    NoDotAt(pre);
    NoDotAt(ext);
    if FileNameMatches(Compile(pre), Compile(ext), name) {
      FileMatchOnlyIf(pre, ext, name);
    }
    if |pre| + 1 + |ext| <= |name| && IsPrefix(pre, name) && IsSuffix("." + ext, name) {
      FileMatchIf(pre, ext, name);
    }
  }

  lemma NoDotAt(s: string)
    requires '.' !in s
    ensures forall k :: 0 <= k < |s| ==> s[k] != '.'
  {
    forall k | 0 <= k < |s| ensures s[k] != '.' { assert s[k] in s; }
  }

  lemma FileMatchOnlyIf(pre: string, ext: string, name: string)
    requires forall k :: 0 <= k < |name| ==> name[k] != '\n'
    requires forall k :: 0 <= k < |pre| ==> pre[k] != '.'
    requires forall k :: 0 <= k < |ext| ==> ext[k] != '.'
    requires FileNameMatches(Compile(pre), Compile(ext), name)
    ensures |pre| + 1 + |ext| <= |name| && IsPrefix(pre, name) && IsSuffix("." + ext, name)
  {
    assert EndsAt(Compile(pre), Compile(ext), name, |name|);
    MatchedPrefix(pre, name);
    MatchedExtension(pre, ext, name);
  }

  lemma MatchedPrefix(pre: string, name: string)
    requires forall k :: 0 <= k < |pre| ==> pre[k] != '.'
    requires MatchesAt(Compile(pre), name, 0)
    ensures IsPrefix(pre, name)
  {
    var p := Compile(pre);
    forall k | 0 <= k < |pre| ensures name[k] == pre[k] {
      assert AtomMatches(p[k], name[k]);
    }
    assert name[..|pre|] == pre;
  }

  lemma MatchedExtension(pre: string, ext: string, name: string)
    requires forall k :: 0 <= k < |ext| ==> ext[k] != '.'
    requires EndsAt(Compile(pre), Compile(ext), name, |name|)
    ensures |pre| + 1 + |ext| <= |name| && IsSuffix("." + ext, name)
  {
    var x, e := Compile(ext), |name|;
    forall k | 0 <= k < |ext| ensures name[e - |ext| + k] == ext[k] {
      assert AtomMatches(x[k], name[e - |ext| + k]);
    }
    assert name[e - |ext|..] == ext;
    assert name[e - |ext| - 1..] == "." + ext;
  }

  lemma FileMatchIf(pre: string, ext: string, name: string)
    requires forall k :: 0 <= k < |pre| ==> pre[k] != '.'
    requires forall k :: 0 <= k < |ext| ==> ext[k] != '.'
    requires |pre| + 1 + |ext| <= |name| && IsPrefix(pre, name) && IsSuffix("." + ext, name)
    requires forall k :: 0 <= k < |name| ==> name[k] != '\n'
    ensures FileNameMatches(Compile(pre), Compile(ext), name)
  {
    var p, x, e := Compile(pre), Compile(ext), |name|;
    forall k | 0 <= k < |p| ensures AtomMatches(p[k], name[k]) {
      assert name[k] == name[..|pre|][k];
    }
    assert MatchesAt(p, name, 0);
    forall k | 0 <= k < |x| ensures AtomMatches(x[k], name[e - |x| + k]) {
      assert name[e - |x| + k] == name[e - |ext| - 1..][k + 1];
    }
    assert name[e - |ext| - 1] == name[e - |ext| - 1..][0];
    assert EndsAt(p, x, name, e);
  }

  /** A name ending in `run` and decimal digits yields the value of those
      digits, whatever comes before. */
  lemma RunNumberOfRunDigits(pre: string, digits: string)
    requires |digits| > 0 && AllDigits(digits)
    ensures RunNumberOf(pre + "run" + digits) == Some(DecimalValue(digits))
  {
    var t := pre + "run" + digits;
    assert RunNumberAtEnd(t) == Some(DecimalValue(digits)) by {
      RunNumberAtEndOfRunDigits(pre, digits);
    }
    assert WithoutFinalNewline(t) == t by {
      assert t[|t| - 1] == digits[|digits| - 1];
    }
  }

  /** `$` also matches before one final newline, so such a name gives the
      same number. */
  lemma RunNumberOfRunDigitsNewline(pre: string, digits: string)
    requires |digits| > 0 && AllDigits(digits)
    ensures RunNumberOf(pre + "run" + digits + "\n") == Some(DecimalValue(digits))
  {
    var t := pre + "run" + digits;
    assert RunNumberAtEnd(t) == Some(DecimalValue(digits)) by {
      RunNumberAtEndOfRunDigits(pre, digits);
    }
    assert WithoutFinalNewline(t + "\n") == t by {
      var u := t + "\n";
      assert u[..|u| - 1] == t;
    }
  }

  lemma RunNumberAtEndOfRunDigits(pre: string, digits: string)
    requires |digits| > 0 && AllDigits(digits)
    ensures RunNumberAtEnd(pre + "run" + digits) == Some(DecimalValue(digits))
  {
    var front := pre + "run";
    var t := front + digits;
    assert front[|front| - 1] == 'n';
    TrailingDigitsOfSuffix(front, digits);
    assert t[|t| - |digits| - 3] == 'r' && t[|t| - |digits| - 2] == 'u';
    assert t[|t| - |digits|..] == digits;
  }

  lemma {:induction false} TrailingDigitsOfSuffix(front: string, digits: string)
    requires |digits| > 0 && AllDigits(digits)
    requires front != [] && !IsDigit(front[|front| - 1])
    ensures TrailingDigits(front + digits) == |digits|
  {
    var s := front + digits;
    assert s[..|s| - 1] == front + digits[..|digits| - 1];
    if |digits| == 1 {
      assert s[..|s| - 1] == front;
    } else {
      TrailingDigitsOfSuffix(front, digits[..|digits| - 1]);
    }
  }

  /** The converse: a name gives a run number only when it is some text,
      `run` and decimal digits, possibly followed by one newline, and the
      number is the value of those digits. Every other name makes get_run_num
      fail. */
  lemma RunNumberOnlyOfRunDigits(name: string)
    requires RunNumberOf(name).Some?
    ensures exists pre, digits ::
      && |digits| > 0 && AllDigits(digits)
      && (name == pre + "run" + digits || name == pre + "run" + digits + "\n")
      && RunNumberOf(name) == Some(DecimalValue(digits))
  {
    var t := WithoutFinalNewline(name);
    var n := TrailingDigits(t);
    var pre, digits := t[..|t| - n - 3], t[|t| - n..];
    assert t[|t| - n - 3..|t| - n] == "run";
    assert t == pre + "run" + digits by {
      assert t == t[..|t| - n - 3] + t[|t| - n - 3..|t| - n] + t[|t| - n..];
    }
    assert name == t || name == t + "\n";
  }

}
