/**
 * The contact schema of models/Contact.js: five required string fields, all
 * trimmed when a document is built, the email also lower-cased, and two
 * anchored regular-expression validators on the email and the phone number.
 * The regular expressions are stated as predicates on characters; `\w` is
 * `[A-Za-z0-9_]` and `\d` is `[0-9]`, as in JavaScript without the `u` flag.
 */
module ContactModel {
  import opened JsStrings

  datatype ContactDoc = ContactDoc(firstname: string, lastname: string, email: string, phone: string, message: string)

  predicate IsDigit(c: char) { '0' <= c <= '9' }

  predicate IsAsciiLetter(c: char) { 'a' <= c <= 'z' || 'A' <= c <= 'Z' }

  /** `\w` */
  predicate IsWordChar(c: char) { IsAsciiLetter(c) || IsDigit(c) || c == '_' }

  /** `[\w-]` */
  predicate IsAtomChar(c: char) { IsWordChar(c) || c == '-' }

  /** `[\w-]+` */
  predicate IsAtom(s: string) {
    |s| > 0 && forall i :: 0 <= i < |s| ==> IsAtomChar(s[i])
  }

  /** `[\w-]+(\.[\w-]+)*`: atoms joined by single dots. */
  predicate IsDotAtoms(s: string) {
    var parts := Split(s, '.');
    forall i :: 0 <= i < |parts| ==> IsAtom(parts[i])
  }

  /** `[a-zA-Z]{2,7}` */
  predicate IsTopLevel(s: string) {
    2 <= |s| <= 7 && forall i :: 0 <= i < |s| ==> IsAsciiLetter(s[i])
  }

  /** `([\w-]+\.)+[a-zA-Z]{2,7}`: one or more atoms each followed by a dot, then the top-level
      label; the label holds no dot, so it is what follows the last dot. */
  predicate IsDomain(s: string) {
    var labels := Split(s, '.');
    && |labels| >= 2
    && (forall i :: 0 <= i < |labels| - 1 ==> IsAtom(labels[i]))
    && IsTopLevel(labels[|labels| - 1])
  }

  /** The email validator, `^[\w-]+(\.[\w-]+)*@([\w-]+\.)+[a-zA-Z]{2,7}$` (models/Contact.js:21):
      neither side of the `@` can hold another `@`, so a match splits at `@` into exactly two parts. */
  predicate EmailValid(s: string) {
    var halves := Split(s, '@');
    |halves| == 2 && IsDotAtoms(halves[0]) && IsDomain(halves[1])
  }

  /** The phone validator, `^\+?[1-9]\d{1,14}$` (models/Contact.js:30). */
  predicate PhoneValid(s: string) {
    && 2 <= |PhoneDigits(s)| <= 15
    && '1' <= PhoneDigits(s)[0] <= '9'
    && forall i :: 0 <= i < |PhoneDigits(s)| ==> IsDigit(PhoneDigits(s)[i])
  }

  /** What follows the optional leading `+`. */
  function PhoneDigits(s: string): string {
    if |s| > 0 && s[0] == '+' then s[1..] else s
  }

  /** The casting of `new Contact({...})`: every field trimmed, the email also lower-cased. */
  function Cast(raw: ContactDoc): (doc: ContactDoc)
    ensures doc.firstname == Trim(raw.firstname) && doc.lastname == Trim(raw.lastname)
    ensures doc.phone == Trim(raw.phone) && doc.message == Trim(raw.message)
    ensures doc.email == Trim(ToLower(raw.email))
  {
    TrimLowerCommute(raw.email);
    ContactDoc(Trim(raw.firstname), Trim(raw.lastname), ToLower(Trim(raw.email)), Trim(raw.phone), Trim(raw.message))
  }

  /** What `save()` validates: `required` (a non-empty string) on every field and the two validators. */
  predicate SchemaValid(doc: ContactDoc) {
    && doc.firstname != "" && doc.lastname != "" && doc.email != ""
    && doc.phone != "" && doc.message != ""
    && EmailValid(doc.email)
    && PhoneValid(doc.phone)
  }

  /** Casting a cast document changes nothing: the stored fields are already trimmed and lower-cased. */
  lemma CastIdempotent(raw: ContactDoc)
    ensures Cast(Cast(raw)) == Cast(raw)
  {
    TrimIdempotent(raw.firstname);
    TrimIdempotent(raw.lastname);
    TrimIdempotent(raw.phone);
    TrimIdempotent(raw.message);
    var e := Trim(raw.email);
    TrimLowerCommute(e);
    TrimIdempotent(raw.email);
    ToLowerIdempotent(e);
  }

  // ----- Properties of the validators -----

  /** Dotted atoms hold only atom characters and dots, and start and end with an atom character. */
  lemma DotAtomsShape(s: string)
    requires IsDotAtoms(s)
    ensures |s| > 0 && IsAtomChar(s[0]) && IsAtomChar(s[|s| - 1])
    ensures forall k :: 0 <= k < |s| ==> IsAtomChar(s[k]) || s[k] == '.'
  {
    var parts := Split(s, '.');
    forall k | 0 <= k < |s| && s[k] != '.' ensures IsAtomChar(s[k]) {
      var i, j := PartOf(s, '.', k);
    }
    SplitFirstIsPrefix(s, '.');
    SplitLastIsSuffix(s, '.');
    var first, last := parts[0], parts[|parts| - 1];
    assert first[0] == s[0];
    assert last[|last| - 1] == s[|s| - 1];
  }

  /** A domain holds only atom characters and dots, starts with an atom character and ends in a letter. */
  lemma DomainShape(s: string)
    requires IsDomain(s)
    ensures |s| > 0 && IsAtomChar(s[0]) && IsAsciiLetter(s[|s| - 1])
    ensures forall k :: 0 <= k < |s| ==> IsAtomChar(s[k]) || s[k] == '.'
  {
    var labels := Split(s, '.');
    forall k | 0 <= k < |s| && s[k] != '.' ensures IsAtomChar(s[k]) {
      var i, j := PartOf(s, '.', k);
      if i == |labels| - 1 { assert IsAsciiLetter(labels[i][j]); }
      else { assert IsAtomChar(labels[i][j]); }
    }
    SplitFirstIsPrefix(s, '.');
    SplitLastIsSuffix(s, '.');
    var first, last := labels[0], labels[|labels| - 1];
    assert first[0] == s[0];
    assert last[|last| - 1] == s[|s| - 1];
  }

  /** An accepted email holds exactly one `@`. */
  lemma EmailHasOneAt(s: string)
    requires EmailValid(s)
    ensures Count(s, '@') == 1
  {
    CountIsPartsMinusOne(s, '@');
  }

  /** An accepted email holds no white space. */
  lemma EmailHasNoSpace(s: string)
    requires EmailValid(s)
    ensures NoSpace(s)
  {
    var halves := Split(s, '@');
    DotAtomsShape(halves[0]);
    DomainShape(halves[1]);
    forall k | 0 <= k < |s| ensures !IsSpace(s[k]) {
      if s[k] != '@' {
        var i, j := PartOf(s, '@', k);
      }
    }
  }

  /** An accepted email neither starts nor ends with a dot. */
  lemma EmailHasNoOuterDot(s: string)
    requires EmailValid(s)
    ensures s[0] != '.' && s[|s| - 1] != '.'
  {
    var halves := Split(s, '@');
    DotAtomsShape(halves[0]);
    DomainShape(halves[1]);
    SplitFirstIsPrefix(s, '@');
    SplitLastIsSuffix(s, '@');
    assert halves[0][0] == s[0];
    assert halves[1][|halves[1]| - 1] == s[|s| - 1];
  }

  /** A match of `/\S+@\S+\.\S+/` around an `@` at `at` and a `.` at `dot`: a non-space before the `@`,
      only non-space characters (at least one) between the two, and a non-space after the `.`. */
  predicate LooseMatchAt(s: string, at: int, dot: int) {
    && 0 < at && at + 1 < dot < |s| - 1
    && s[at] == '@' && !IsSpace(s[at - 1])
    && s[dot] == '.' && !IsSpace(s[dot + 1]) && NoSpace(s[at + 1..dot])
  }

  /** The controller's unanchored check `/\S+@\S+\.\S+/` (controllers/contactController.js:15). */
  predicate LooseEmail(s: string) {
    exists at, dot | 0 < at < dot < |s| :: LooseMatchAt(s, at, dot)
  }

  /** Atoms joined by dots match `[\w-]+(\.[\w-]+)*`. */
  lemma DotAtomsOfJoin(parts: seq<string>)
    requires |parts| >= 1 && forall i :: 0 <= i < |parts| ==> IsAtom(parts[i])
    ensures IsDotAtoms(Join(parts, '.'))
  {
    forall i | 0 <= i < |parts| ensures '.' !in parts[i] {
      assert forall k :: 0 <= k < |parts[i]| ==> IsAtomChar(parts[i][k]);
    }
    SplitJoin(parts, '.');
  }

  /** Atoms and a top-level label joined by dots match `([\w-]+\.)+[a-zA-Z]{2,7}`. */
  lemma DomainOfJoin(labels: seq<string>)
    requires |labels| >= 2 && IsTopLevel(labels[|labels| - 1])
    requires forall i :: 0 <= i < |labels| - 1 ==> IsAtom(labels[i])
    ensures IsDomain(Join(labels, '.'))
  {
    LabelsHaveNoDot(labels);
    SplitJoin(labels, '.');
    DomainOfLabels(Join(labels, '.'), labels);
  }

  lemma DomainOfLabels(s: string, labels: seq<string>)
    requires Split(s, '.') == labels && |labels| >= 2 && IsTopLevel(labels[|labels| - 1])
    requires forall i :: 0 <= i < |labels| - 1 ==> IsAtom(labels[i])
    ensures IsDomain(s)
  {
  }

  lemma LabelsHaveNoDot(labels: seq<string>)
    requires |labels| >= 2 && IsTopLevel(labels[|labels| - 1])
    requires forall i :: 0 <= i < |labels| - 1 ==> IsAtom(labels[i])
    ensures forall i :: 0 <= i < |labels| ==> '.' !in labels[i]
  {
    forall i | 0 <= i < |labels| ensures '.' !in labels[i] {
      if i < |labels| - 1 {
        assert forall k :: 0 <= k < |labels[i]| ==> IsAtomChar(labels[i][k]);
      } else {
        assert forall k :: 0 <= k < |labels[i]| ==> IsAsciiLetter(labels[i][k]);
      }
    }
  }

  /** An email is accepted exactly when the text before its `@` is dotted atoms and the text after it a domain. */
  lemma EmailValidAt(local: string, domain: string)
    requires '@' !in local && '@' !in domain
    ensures EmailValid(local + ['@'] + domain) <==> IsDotAtoms(local) && IsDomain(domain)
  {
    assert local + ['@'] + domain == Join([local, domain], '@');
    SplitJoin([local, domain], '@');
  }

  /** The loose check succeeds on a witness: an `@` at `at` and a `.` at `dot` with the required non-space characters. */
  lemma LooseAt(s: string, at: nat, dot: nat)
    requires 0 < at && at + 1 < dot < |s| - 1
    requires s[at] == '@' && !IsSpace(s[at - 1])
    requires s[dot] == '.' && !IsSpace(s[dot + 1]) && NoSpace(s[at + 1..dot])
    ensures LooseEmail(s)
  {
    assert LooseMatchAt(s, at, dot);
  }

  /** A domain starts with a non-empty label free of white space, then a dot and a non-space character. */
  lemma DomainFirstDot(domain: string) returns (n: nat)
    requires IsDomain(domain)
    ensures 0 < n < |domain| - 1 && domain[n] == '.' && !IsSpace(domain[n + 1]) && NoSpace(domain[..n])
  {
    var labels := Split(domain, '.');
    n := IndexOf(domain, '.');
    SplitFirstIsPrefix(domain, '.');
    assert labels[0] == domain[..n];
    assert n < |domain|;
    var rest := domain[n + 1..];
    assert Split(domain, '.') == [domain[..n]] + Split(rest, '.');
    assert labels[1] == Split(rest, '.')[0];
    SplitFirstIsPrefix(rest, '.');
    assert |labels[1]| > 0;
    assert labels[1][0] == rest[0] == domain[n + 1];
  }

  /** An email built from dotted atoms, `@` and a domain passes the controller's looser check. */
  lemma LooseFromParts(local: string, domain: string)
    requires IsDotAtoms(local) && IsDomain(domain)
    ensures LooseEmail(local + ['@'] + domain)
  {
    var s := local + ['@'] + domain;
    DotAtomsShape(local);
    var n := DomainFirstDot(domain);
    var at, dot := |local|, |local| + 1 + n;
    assert s[at - 1] == local[at - 1];
    assert s[at + 1..dot] == domain[..n];
    assert s[dot] == domain[n] && s[dot + 1] == domain[n + 1];
    LooseAt(s, at, dot);
  }

  /** Every email the schema accepts also passes the controller's looser check. */
  lemma EmailValidIsLoose(s: string)
    requires EmailValid(s)
    ensures LooseEmail(s)
  {
    var halves := Split(s, '@');
    JoinSplit(s, '@');
    assert s == halves[0] + ['@'] + halves[1];
    LooseFromParts(halves[0], halves[1]);
  }

  /** The positions of an `@` and a `.` that make the loose check succeed. */
  lemma LooseWitness(s: string) returns (at: nat, dot: nat)
    requires LooseEmail(s)
    ensures 0 < at && at + 1 < dot < |s| - 1
    ensures s[at] == '@' && !IsSpace(s[at - 1])
    ensures s[dot] == '.' && !IsSpace(s[dot + 1]) && NoSpace(s[at + 1..dot])
  {
    var a, d :| 0 < a < d < |s| && LooseMatchAt(s, a, d);
    at, dot := a, d;
  }

  /** The loose check does not look at letter case: what it finds in the lower-cased text it finds in the text. */
  lemma LooseOfLower(s: string)
    requires LooseEmail(ToLower(s))
    ensures LooseEmail(s)
  {
    var t := ToLower(s);
    var at, dot := LooseWitness(t);
    LowerCharKeepsSpace(s[at - 1]);
    LowerCharKeepsSpace(s[dot + 1]);
    ToLowerSlice(s, at + 1, dot);
    NoSpaceOfLower(s[at + 1..dot]);
    LooseAt(s, at, dot);
  }

  lemma NoSpaceOfLower(s: string)
    requires NoSpace(ToLower(s))
    ensures NoSpace(s)
  {
    forall i | 0 <= i < |s| ensures !IsSpace(s[i]) {
      LowerCharKeepsSpace(s[i]);
    }
  }

  /** The loose check is unanchored: a match inside a slice is a match in the whole string. */
  lemma LooseInside(s: string, k: nat, n: nat)
    requires k + n <= |s| && LooseEmail(s[k..k + n])
    ensures LooseEmail(s)
  {
    var t := s[k..k + n];
    var at, dot := LooseWitness(t);
    SliceOfSlice(s, k, n, at + 1, dot);
    assert s[k + at] == t[at] && s[k + at - 1] == t[at - 1];
    assert s[k + dot] == t[dot] && s[k + dot + 1] == t[dot + 1];
    LooseAt(s, k + at, k + dot);
  }

  lemma SliceOfSlice(s: string, k: nat, n: nat, i: nat, j: nat)
    requires k + n <= |s| && i <= j <= n
    ensures s[k..k + n][i..j] == s[k + i..k + j]
  {
    var t := s[k..k + n];
    forall m | 0 <= m < j - i ensures t[i..j][m] == s[k + i..k + j][m] {
      assert t[i..j][m] == t[i + m] == s[k + i + m];
    }
  }

  /** The controller tests the raw email and the schema the trimmed, lower-cased one: every raw email
      whose cast form the schema accepts also passes the controller's loose check. */
  lemma RawEmailValidIsLoose(raw: string)
    requires EmailValid(ToLower(Trim(raw)))
    ensures LooseEmail(raw)
  {
    EmailValidIsLoose(ToLower(Trim(raw)));
    LooseOfLower(Trim(raw));
    LooseOfTrimmed(raw);
  }

  /** What the loose check finds in the trimmed text it finds in the raw text. */
  lemma LooseOfTrimmed(raw: string)
    requires LooseEmail(Trim(raw))
    ensures LooseEmail(raw)
  {
    var x := Trim(raw);
    TrimRemovesOuterSpace(raw);
    LooseInside(raw, LeadingSpaces(raw), |x|);
  }

  /** Lower-casing keeps an atom an atom. */
  lemma AtomOfLower(s: string)
    requires IsAtom(s)
    ensures IsAtom(ToLower(s))
  {
  }

  /** An email made of atoms and a letter needs no trimming. */
  lemma AtomEmailIsTrimmed(local: string, host: string, top: char)
    requires IsAtom(local) && IsAtom(host) && IsAsciiLetter(top)
    ensures Trim(local + ['@'] + host + ['.', top]) == local + ['@'] + host + ['.', top]
  {
    var e := local + ['@'] + host + ['.', top];
    assert e[0] == local[0] && e[|e| - 1] == top;
    TrimKeepsInner(e);
  }

  /** Lower-casing such an email lower-cases its parts and leaves `@` and `.` alone. */
  lemma LowerOfEmailParts(local: string, host: string, top: char)
    ensures ToLower(local + ['@'] + host + ['.', top]) == ToLower(local) + ['@'] + ToLower(host) + ['.', LowerChar(top)]
  {
    var e := local + ['@'] + host + ['.', top];
    assert e == local + (['@'] + (host + ['.', top]));
    ToLowerConcat(local, ['@'] + (host + ['.', top]));
    ToLowerConcat(['@'], host + ['.', top]);
    ToLowerConcat(host, ['.', top]);
    assert ToLower(['@']) == ['@'] && ToLower(['.', top]) == ['.', LowerChar(top)];
  }

  /** A one-letter top-level label is refused after casting too, whatever the letter case. */
  lemma OneLetterTopLevelCastRejected(local: string, host: string, top: char)
    requires IsAtom(local) && IsAtom(host) && IsAsciiLetter(top)
    ensures !EmailValid(ToLower(Trim(local + ['@'] + host + ['.', top])))
  {
    AtomEmailIsTrimmed(local, host, top);
    LowerOfEmailParts(local, host, top);
    AtomOfLower(local);
    AtomOfLower(host);
    OneLetterTopLevelRejected(ToLower(local), ToLower(host), LowerChar(top));
  }

  /** An accepted phone number has 2 to 15 characters after an optional `+`, and a first digit other than 0. */
  lemma PhoneValidShape(s: string)
    requires PhoneValid(s)
    ensures NoSpace(s) && 2 <= |s| <= 16
    ensures s[0] != '0' && (s[0] == '+' ==> s[1] != '0')
  {
  }

  /** A leading zero is refused, with or without the `+`. */
  lemma PhoneLeadingZeroRejected(rest: string)
    ensures !PhoneValid("0" + rest) && !PhoneValid("+0" + rest)
  {
    assert ("+0" + rest)[1..] == "0" + rest;
  }

  // ----- Examples -----

  /** Two atoms joined by a dot are dotted atoms. */
  lemma AtomPairIsDotAtoms(first: string, last: string)
    requires IsAtom(first) && IsAtom(last)
    ensures IsDotAtoms(first + ['.'] + last)
  {
    AtomLacks(first, '.');
    AtomLacks(last, '.');
    SplitTwo(first, '.', last);
  }

  /** An atom, a dot and a top-level label form a domain. */
  lemma HostTopIsDomain(host: string, top: string)
    requires IsAtom(host) && IsTopLevel(top)
    ensures IsDomain(host + ['.'] + top)
  {
    AtomLacks(host, '.');
    SplitTwo(host, '.', top);
  }

  /** Addresses of the shape `first.last@host.tld` are accepted. */
  lemma DottedEmailAccepted(first: string, last: string, host: string, top: string)
    requires IsAtom(first) && IsAtom(last) && IsAtom(host) && IsTopLevel(top)
    ensures EmailValid(first + ['.'] + last + ['@'] + host + ['.'] + top)
  {
    var local, domain := first + ['.'] + last, host + ['.'] + top;
    AtomPairIsDotAtoms(first, last);
    HostTopIsDomain(host, top);
    DotAtomsShape(local);
    DomainShape(domain);
    assert '@' !in local && '@' !in domain;
    SplitTwo(local, '@', domain);
    assert first + ['.'] + last + ['@'] + host + ['.'] + top == local + ['@'] + domain;
  }

  /** An atom holds no character outside `[\w-]`, such as `@` or `.`. */
  lemma AtomLacks(s: string, c: char)
    requires IsAtom(s) && !IsAtomChar(c)
    ensures c !in s
  {
  }

  /** A one-letter top-level label, as in `a@b.c`, is refused by the schema. */
  lemma OneLetterTopLevelRejected(local: string, host: string, top: char)
    requires IsAtom(local) && IsAtom(host) && IsAsciiLetter(top)
    ensures !EmailValid(local + ['@'] + host + ['.', top])
  {
    var domain := host + ['.', top];
    AtomLacks(local, '@');
    AtomLacks(host, '@');
    AtomLacks(host, '.');
    assert domain == host + ['.'] + [top];
    SplitTwo(host, '.', [top]);
    assert !IsTopLevel([top]);
    assert '@' !in domain;
    SplitTwo(local, '@', domain);
    assert local + ['@'] + host + ['.', top] == local + ['@'] + domain;
  }

  /** The same address passes the controller's loose check. */
  lemma OneLetterTopLevelLoose(local: string, host: string, top: char)
    requires IsAtom(local) && IsAtom(host) && IsAsciiLetter(top)
    ensures LooseEmail(local + ['@'] + host + ['.', top])
  {
    var s := local + ['@'] + host + ['.', top];
    var at, dot := |local|, |local| + 1 + |host|;
    assert s[at - 1] == local[at - 1];
    assert s[at + 1..dot] == host;
    assert s[dot] == '.' && s[dot + 1] == top;
    LooseAt(s, at, dot);
  }

  lemma PhoneExamples()
    ensures PhoneValid("+2348012345678")
    ensures PhoneValid("2348012345678")
    ensures !PhoneValid("08012345678")
    ensures !PhoneValid("+1")
  {
  }
}
