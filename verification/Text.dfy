/** ASCII text: white space, case and trimming. */
module Text {

  predicate IsSpace(c: char) {
    c in " \t\n\r" || c == 11 as char || c == 12 as char
  }

  predicate IsDigit(c: char) {
    '0' <= c <= '9'
  }

  function LowerChar(c: char): char {
    if 'A' <= c <= 'Z' then c + 32 as char else c
  }

  function UpperChar(c: char): char {
    if 'a' <= c <= 'z' then c - 32 as char else c
  }

  function Lower(s: string): (r: string)
    ensures |r| == |s|
  {
    seq(|s|, i requires 0 <= i < |s| => LowerChar(s[i]))
  }

  function Upper(s: string): (r: string)
    ensures |r| == |s|
  {
    seq(|s|, i requires 0 <= i < |s| => UpperChar(s[i]))
  }

  function TrimStart(s: string): string {
    if s != [] && IsSpace(s[0]) then TrimStart(s[1..]) else s
  }

  function TrimEnd(s: string): string {
    if s != [] && IsSpace(s[|s| - 1]) then TrimEnd(s[..|s| - 1]) else s
  }

  function Trim(s: string): string {
    TrimEnd(TrimStart(s))
  }

  /** Trimming takes off white space at both ends, and nothing else. */
  lemma {:induction false} TrimStartDrops(s: string) returns (n: nat)
    ensures n <= |s| && TrimStart(s) == s[n..]
    ensures forall i :: 0 <= i < n ==> s[i] in " \t\n\r" || s[i] as int in {11, 12}
    ensures n < |s| ==> s[n] !in " \t\n\r" && s[n] as int !in {11, 12}
  {
    n := 0;
    if s != [] && IsSpace(s[0]) {
      var m := TrimStartDrops(s[1..]);
      n := m + 1;
    }
  }

  lemma {:induction false} TrimEndDrops(s: string) returns (n: nat)
    ensures n <= |s| && TrimEnd(s) == s[..n]
    ensures forall i :: n <= i < |s| ==> s[i] in " \t\n\r" || s[i] as int in {11, 12}
    ensures n > 0 ==> s[n - 1] !in " \t\n\r" && s[n - 1] as int !in {11, 12}
  {
    n := |s|;
    if s != [] && IsSpace(s[|s| - 1]) {
      n := TrimEndDrops(s[..|s| - 1]);
    }
  }

  lemma TrimDropsEnds(s: string) returns (from: nat, to: nat)
    ensures from <= to <= |s| && Trim(s) == s[from..to]
    ensures forall i :: 0 <= i < |s| && !(from <= i < to) ==> s[i] in " \t\n\r" || s[i] as int in {11, 12}
    ensures from < to ==>
      && s[from] !in " \t\n\r" && s[from] as int !in {11, 12}
      && s[to - 1] !in " \t\n\r" && s[to - 1] as int !in {11, 12}
  {
    from := TrimStartDrops(s);
    var n := TrimEndDrops(s[from..]);
    to := from + n;
    hide TrimStart, TrimEnd;
  }

  /** Case: the letters A to Z and a to z correspond, and every other character stays. */
  lemma CaseOfLetters(s: string)
    ensures forall i :: 0 <= i < |s| ==>
      && (if 'A' <= s[i] <= 'Z' then Lower(s)[i] as int == s[i] as int + 32 else Lower(s)[i] == s[i])
      && (if 'a' <= s[i] <= 'z' then Upper(s)[i] as int == s[i] as int - 32 else Upper(s)[i] == s[i])
  {
  }

  /** Two texts are the same without regard to case exactly if they differ at most in the case of letters. */
  lemma SameLowerIff(a: string, b: string)
    ensures Lower(a) == Lower(b) <==>
      && |a| == |b|
      && forall i :: 0 <= i < |a| ==>
           || a[i] == b[i]
           || ('A' <= a[i] <= 'Z' && b[i] as int == a[i] as int + 32)
           || ('a' <= a[i] <= 'z' && b[i] as int == a[i] as int - 32)
  {
    CaseOfLetters(a);
    CaseOfLetters(b);
    if |a| == |b| {
      assert Lower(a) == Lower(b) <==> forall i :: 0 <= i < |a| ==> Lower(a)[i] == Lower(b)[i];
    } else {
      assert |Lower(a)| == |a| && |Lower(b)| == |b|;
    }
    hide Lower, Upper;
  }
}
