/**
 * The two email patterns of the application. The welcome form tests
 * `^[a-zA-Z0-9._%+-]+@[a-zA-Z0-9.-]+\.[a-zA-Z]{2,}$`; the event modal's pattern is the same
 * but for `\\.` where the form has `\.`, which inside a regular-expression literal matches a
 * backslash followed by any character other than a line terminator.
 */
module Email {
  import opened Wrappers

  predicate IsLetter(c: char) { 'a' <= c <= 'z' || 'A' <= c <= 'Z' }

  predicate IsAlnum(c: char) { IsLetter(c) || '0' <= c <= '9' }

  /** `[a-zA-Z0-9._%+-]` */
  predicate LocalChar(c: char) { IsAlnum(c) || c == '.' || c == '_' || c == '%' || c == '+' || c == '-' }

  /** `[a-zA-Z0-9.-]` */
  predicate DomainChar(c: char) { IsAlnum(c) || c == '.' || c == '-' }

  /** The characters `.` does not match without the `s` flag. */
  predicate IsLineTerminator(c: char) { c == '\n' || c == '\r' || c == ' ' || c == ' ' }

  /** `[a-zA-Z0-9._%+-]+` */
  predicate LocalPart(l: string) { |l| >= 1 && forall k :: 0 <= k < |l| ==> LocalChar(l[k]) }

  /** `[a-zA-Z0-9.-]+` */
  predicate DomainPart(d: string) { |d| >= 1 && forall k :: 0 <= k < |d| ==> DomainChar(d[k]) }

  /** `[a-zA-Z]{2,}` */
  predicate TopLevel(t: string) { |t| >= 2 && forall k :: 0 <= k < |t| ==> IsLetter(t[k]) }

  // ---------------------------------------------------------------- the form's pattern

  /** The form's pattern matches `s` with the `@` at `i` and the escaped `.` at `j`. */
  predicate PageMatchAt(s: string, i: int, j: int) {
    0 <= i < j < |s| && s[i] == '@' && s[j] == '.'
    && LocalPart(s[..i]) && DomainPart(s[i + 1..j]) && TopLevel(s[j + 1..])
  }

  /** The language of the form's pattern: some placement of `@` and `.` fits it. */
  ghost predicate PageLanguage(s: string) {
    exists i, j :: PageMatchAt(s, i, j)
  }

  /** `emailRegex.test(s)` for the form's pattern: the `@` is the only one, the `.` the last one. */
  function PageEmailTest(s: string): bool {
    match (IndexOf(s, '@'), LastIndexOf(s, '.'))
    case (Some(i), Some(j)) => PageMatchAt(s, i, j)
    case _ => false
  }

  /** The test accepts exactly the strings of the pattern's language. */
  lemma PageEmailTestIsPattern(s: string)
    ensures PageEmailTest(s) <==> PageLanguage(s)
  {
    if PageLanguage(s) {
      var i, j :| PageMatchAt(s, i, j);
      IndexOfFirst(s, '@', i);
      LastIndexOfLast(s, '.', j);
    }
  }

  /** Any address built from a local part, a domain and a top-level part passes the form's test. */
  lemma PageEmailTestAccepts(l: string, d: string, t: string)
    requires LocalPart(l) && DomainPart(d) && TopLevel(t)
    ensures PageEmailTest(l + "@" + d + "." + t)
  {
    var s := l + "@" + d + "." + t;
    var i, j := |l|, |l| + 1 + |d|;
    assert s[..i] == l && s[i + 1..j] == d && s[j + 1..] == t;
    assert PageMatchAt(s, i, j);
    PageEmailTestIsPattern(s);
  }

  // ---------------------------------------------------------------- the modal's pattern

  /** The modal's pattern matches `s` with the `@` at `i` and the backslash at `j`, any character after it. */
  predicate ModalMatchAt(s: string, i: int, j: int) {
    0 <= i < j && j + 1 < |s| && s[i] == '@' && s[j] == '\\' && !IsLineTerminator(s[j + 1])
    && LocalPart(s[..i]) && DomainPart(s[i + 1..j]) && TopLevel(s[j + 2..])
  }

  ghost predicate ModalLanguage(s: string) {
    exists i, j :: ModalMatchAt(s, i, j)
  }

  /** `emailRegex.test(s)` for the modal's pattern: the first `@`, then the first backslash after it. */
  function ModalEmailTest(s: string): bool {
    match IndexOf(s, '@')
    case None => false
    case Some(i) => ModalTestFrom(s, i)
  }

  /** The rest of the modal's test once the `@` is found at `i`. */
  function ModalTestFrom(s: string, i: nat): bool
    requires i < |s|
  {
    match IndexOf(s[i + 1..], '\\')
    case None => false
    case Some(k) => ModalMatchAt(s, i, i + 1 + k)
  }

  lemma ModalEmailTestIsPattern(s: string)
    ensures ModalEmailTest(s) <==> ModalLanguage(s)
  {
    if ModalLanguage(s) {
      var i, j :| ModalMatchAt(s, i, j);
      ModalMatchIsTest(s, i, j);
    }
  }

  /** Whatever placement fits the modal's pattern is the one its test finds. */
  lemma ModalMatchIsTest(s: string, i: int, j: int)
    requires ModalMatchAt(s, i, j)
    ensures ModalEmailTest(s)
  {
    ModalMatchPlaces(s, i, j);
    ModalTestAt(s, i, j);
  }

  /** A placement that fits the modal's pattern has the first `@` and the first backslash after it. */
  lemma ModalMatchPlaces(s: string, i: int, j: int)
    requires ModalMatchAt(s, i, j)
    ensures 0 <= i < j < |s|
    ensures IndexOf(s, '@') == Some(i) && IndexOf(s[i + 1..], '\\') == Some(j - i - 1)
  {
    NoAtInLocal(s[..i]);
    IndexOfFirst(s, '@', i);
    NoBackslashInDomain(s[i + 1..j]);
    FirstAfter(s, '\\', i, j);
  }

  /** Once the `@` and the backslash are found, the test is the pattern at those places. */
  lemma ModalTestAt(s: string, i: nat, j: nat)
    requires i < j < |s| && IndexOf(s, '@') == Some(i) && IndexOf(s[i + 1..], '\\') == Some(j - i - 1)
    ensures ModalEmailTest(s) == ModalMatchAt(s, i, j)
  {
    ModalTestIsFrom(s, i);
    ModalTestFromAt(s, i, j);
  }

  lemma ModalTestIsFrom(s: string, i: nat)
    requires i < |s| && IndexOf(s, '@') == Some(i)
    ensures ModalEmailTest(s) == ModalTestFrom(s, i)
  {
  }

  lemma ModalTestFromAt(s: string, i: nat, j: nat)
    requires i < j < |s| && IndexOf(s[i + 1..], '\\') == Some(j - i - 1)
    ensures ModalTestFrom(s, i) == ModalMatchAt(s, i, j)
  {
  }

  /** A `c` at `j` with none between `i` and `j` is the first `c` after `i`. */
  lemma FirstAfter(s: string, c: char, i: int, j: int)
    requires 0 <= i < j < |s| && s[j] == c && c !in s[i + 1..j]
    ensures IndexOf(s[i + 1..], c) == Some(j - i - 1)
  {
    var r := s[i + 1..];
    assert r[..j - i - 1] == s[i + 1..j];
    IndexOfFirst(r, c, j - i - 1);
  }

  lemma NoAtInLocal(l: string)
    requires LocalPart(l)
    ensures '@' !in l
  {
    assert forall k :: 0 <= k < |l| ==> LocalChar(l[k]);
  }

  lemma NoBackslashInDomain(d: string)
    requires DomainPart(d)
    ensures '\\' !in d
  {
    assert forall k :: 0 <= k < |d| ==> DomainChar(d[k]);
  }

  /** The modal's test accepts nothing without a backslash. */
  lemma ModalEmailNeedsBackslash(s: string)
    requires ModalEmailTest(s)
    ensures '\\' in s
  {
    ModalEmailTestIsPattern(s);
    var i, j :| ModalMatchAt(s, i, j);
  }

  /** Every address the form accepts is one the modal's test refuses. */
  lemma PageAcceptedModalRefused(s: string)
    requires PageEmailTest(s)
    ensures !ModalEmailTest(s)
  {
    var i, j := IndexOf(s, '@').value, LastIndexOf(s, '.').value;
    assert PageMatchAt(s, i, j);
    forall k | 0 <= k < |s|
      ensures s[k] != '\\'
    {
      if k < i {
        assert s[..i][k] == s[k];
      } else if i < k < j {
        assert s[i + 1..j][k - i - 1] == s[k];
      } else if j < k {
        assert s[j + 1..][k - j - 1] == s[k];
      }
    }
    if ModalEmailTest(s) {
      ModalEmailNeedsBackslash(s);
    }
  }

  /** An ordinary address: the form accepts it, the modal's test refuses it. */
  lemma OrdinaryAddress()
    ensures PageEmailTest("jane@example.com")
    ensures !ModalEmailTest("jane@example.com")
  {
    assert "jane@example.com" == "jane" + "@" + "example" + "." + "com";
    assert LocalPart("jane") && DomainPart("example") && TopLevel("com");
    PageEmailTestAccepts("jane", "example", "com");
    PageAcceptedModalRefused("jane@example.com");
  }

  /** What the modal's test does accept: the domain followed by a backslash and one more character. */
  lemma ModalEmailTestAccepts(l: string, d: string, c: char, t: string)
    requires LocalPart(l) && DomainPart(d) && !IsLineTerminator(c) && TopLevel(t)
    ensures ModalEmailTest(l + "@" + d + "\\" + [c] + t)
  {
    var s := l + "@" + d + "\\" + [c] + t;
    var i, j := |l|, |l| + 1 + |d|;
    assert s[..i] == l && s[i + 1..j] == d && s[j] == '\\' && s[j + 1] == c && s[j + 2..] == t;
    assert ModalMatchAt(s, i, j);
    ModalEmailTestIsPattern(s);
  }

  // ---------------------------------------------------------------- searching

  /** `s.indexOf(c)`: the first position of `c`. */
  function IndexOf(s: string, c: char): (r: Option<nat>)
    ensures r.None? <==> c !in s
    ensures r.Some? ==> r.value < |s| && s[r.value] == c && c !in s[..r.value]
  {
    if s == [] then None
    else if s[0] == c then Some(0)
    else
      match IndexOf(s[1..], c)
      case None => None
      case Some(k) =>
        assert s[..k + 1] == [s[0]] + s[1..][..k];
        Some(k + 1)
  }

  /** `s.lastIndexOf(c)`: the last position of `c`. */
  function LastIndexOf(s: string, c: char): (r: Option<nat>)
    ensures r.None? <==> c !in s
    ensures r.Some? ==> r.value < |s| && s[r.value] == c && c !in s[r.value + 1..]
  {
    if s == [] then None
    else if s[|s| - 1] == c then Some(|s| - 1)
    else
      match LastIndexOf(s[..|s| - 1], c)
      case None =>
        assert s == s[..|s| - 1] + [s[|s| - 1]];
        None
      case Some(k) =>
        assert s[k + 1..] == s[..|s| - 1][k + 1..] + [s[|s| - 1]];
        Some(k)
  }

  /** A position of `c` with no `c` before it is the first one. */
  lemma IndexOfFirst(s: string, c: char, i: int)
    requires 0 <= i < |s| && s[i] == c && c !in s[..i]
    ensures IndexOf(s, c) == Some(i)
  {
    var r := IndexOf(s, c);
    assert r.Some?;
  }

  /** A position of `c` with no `c` after it is the last one. */
  lemma LastIndexOfLast(s: string, c: char, j: int)
    requires 0 <= j < |s| && s[j] == c && c !in s[j + 1..]
    ensures LastIndexOf(s, c) == Some(j)
  {
    var r := LastIndexOf(s, c);
    assert r.Some?;
  }
}
