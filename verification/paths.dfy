/**
 * String-level models of the path helpers the data processor calls:
 * posixpath.join, posixpath.expanduser, and decimal rendering/parsing of
 * integers (f-string formatting and int()).
 */
module Paths {

  predicate IsPrefix(p: string, s: string) {
    |p| <= |s| && s[..|p|] == p
  }

  predicate IsSuffix(p: string, s: string) {
    |p| <= |s| && s[|s| - |p|..] == p
  }

  predicate IsAbsolute(p: string) {
    |p| > 0 && p[0] == '/'
  }

  /** posixpath.join(a, b): an absolute b discards a; otherwise exactly one
      separator is put between them unless a is empty or already ends in '/'. */
  function Join(a: string, b: string): (r: string)
    ensures IsSuffix(b, r)
    ensures !IsAbsolute(b) ==> IsPrefix(a, r) && |r| <= |a| + 1 + |b|
    ensures !IsAbsolute(b) && (a == "" || a[|a| - 1] == '/') ==> |r| == |a| + |b|
    ensures !IsAbsolute(b) && a != "" && a[|a| - 1] != '/' ==> |r| == |a| + 1 + |b| && r[|a|] == '/'
    ensures IsAbsolute(b) ==> r == b
  {
    if IsAbsolute(b) then b
    else if a == "" || a[|a| - 1] == '/' then a + b
    else a + "/" + b
  }

  /** Index of the first '/' at or after position from, or |s| when there is none. */
  function SlashFrom(s: string, from: nat): (i: nat)
    requires from <= |s|
    ensures from <= i <= |s|
    ensures i < |s| ==> s[i] == '/'
    ensures forall k :: from <= k < i ==> s[k] != '/'
    decreases |s| - from
  {
    if from == |s| || s[from] == '/' then from else SlashFrom(s, from + 1)
  }

  /** str.rstrip('/') */
  function RStripSlashes(s: string): (r: string)
    ensures IsPrefix(r, s)
    ensures r == "" || r[|r| - 1] != '/'
    ensures forall k :: |r| <= k < |s| ==> s[k] == '/'
  {
    if s == [] || s[|s| - 1] != '/' then s else RStripSlashes(s[..|s| - 1])
  }

  /** posixpath.expanduser: homes maps a user name to its home directory; the
      empty name stands for the current user ($HOME). An unknown user leaves
      the path unchanged. */
  function ExpandUser(p: string, homes: map<string, string>): (r: string)
    ensures (p == "" || p[0] != '~') ==> r == p
    ensures p != "" ==> r != ""
  {
    if p == "" || p[0] != '~' then p
    else
      var i := SlashFrom(p, 1);
      var user := p[1..i];
      if user !in homes then p
      else
        var expanded := RStripSlashes(homes[user]) + p[i..];
        if expanded == "" then "/" else expanded
  }

  /** A path `~user` followed by nothing or by a path from '/': a known user's
      home directory, its trailing slashes stripped, replaces `~user` ("/"
      when nothing would be left); an unknown user leaves the path as it is. */
  lemma ExpandUserHome(user: string, rest: string, homes: map<string, string>)
    requires '/' !in user
    requires rest == "" || rest[0] == '/'
    ensures user in homes ==>
      ExpandUser("~" + user + rest, homes) == (var h := RStripSlashes(homes[user]) + rest; if h == "" then "/" else h)
    ensures user !in homes ==> ExpandUser("~" + user + rest, homes) == "~" + user + rest
  {
    var p := "~" + user + rest;
    var e := 1 + |user|;
    var i := SlashFrom(p, 1);
    assert forall k :: 1 <= k < e ==> p[k] != '/' by {
      forall k | 1 <= k < e ensures p[k] != '/' {
        assert p[k] == user[k - 1] && user[k - 1] in user;
      }
    }
    assert e < |p| ==> p[e] == '/';
    assert i == e;
    assert p[1..i] == user;
    assert p[i..] == rest;
  }

  predicate IsDigit(c: char) {
    '0' <= c <= '9'
  }

  predicate AllDigits(s: string) {
    forall k :: 0 <= k < |s| ==> IsDigit(s[k])
  }

  function DigitChar(d: nat): (c: char)
    requires d < 10
    ensures IsDigit(c)
  {
    ('0' as int + d) as char
  }

  function DigitValue(c: char): (d: nat)
    requires IsDigit(c)
    ensures d < 10
  {
    c as int - '0' as int
  }

  /** int() of a string of ASCII digits, leading zeros allowed. */
  function DecimalValue(s: string): nat
    requires AllDigits(s)
  {
    if s == [] then 0 else DecimalValue(s[..|s| - 1]) * 10 + DigitValue(s[|s| - 1])
  }

  /** str() of a natural number; parsing it back gives the number. */
  function NatToDecimal(n: nat): (s: string)
    ensures |s| > 0 && AllDigits(s)
    ensures DecimalValue(s) == n
    ensures n > 0 ==> s[0] != '0'
    ensures n < 10 <==> |s| == 1
    decreases n
  {
    if n < 10 then [DigitChar(n)]
    else
      var front := NatToDecimal(n / 10);
      var s := front + [DigitChar(n % 10)];
      assert s[..|s| - 1] == front;
      s
  }

  /** str() of an integer. */
  function IntToDecimal(n: int): (s: string)
    ensures n >= 0 ==> AllDigits(s) && DecimalValue(s) == n
    ensures n >= 0 ==> |s| > 0 && (|s| > 1 ==> s[0] != '0')
    ensures n < 0 ==> |s| >= 2 && s[0] == '-' && AllDigits(s[1..]) && DecimalValue(s[1..]) == -n
    ensures n < 0 ==> s[1] != '0'
  {
    if n < 0 then
      var s := "-" + NatToDecimal(-n);
      assert s[1..] == NatToDecimal(-n);
      s
    else NatToDecimal(n)
  }

  /** Leading zeros do not change the value int() reads. */
  lemma {:induction false} LeadingZero(s: string)
    requires AllDigits(s)
    ensures AllDigits("0" + s) && DecimalValue("0" + s) == DecimalValue(s)
  {
    if s != [] {
      var z := "0" + s;
      assert z[..|z| - 1] == "0" + s[..|s| - 1];
      LeadingZero(s[..|s| - 1]);
    } else {
      assert ("0" + s)[..0] == [];
    }
  }
}
