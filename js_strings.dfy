/**
 * The values and string primitives of the JavaScript runtime that the handlers
 * rely on: truthiness and `||`, white space as `trim` and the
 * regular-expression classes `\s`/`\S` see it, `toLowerCase` on ASCII,
 * `split` on a one-character separator, and character counting.
 */
module JsStrings {
  import opened Wrappers

  /** A JavaScript value as the handlers look at it: `undefined`, a string, or any
      other value (a number, `null`, a boolean, an object), known by its truthiness. */
  datatype JsValue = Undefined | Str(text: string) | Other(truthy: bool)

  /** `undefined` is falsy, a string is truthy when it is not empty. */
  predicate Truthy(v: JsValue) {
    match v
    case Undefined => false
    case Str(text) => text != ""
    case Other(truthy) => truthy
  }

  /** A string that may be `undefined`. */
  function FromOption(o: Option<string>): JsValue {
    match o
    case None => Undefined
    case Some(text) => Str(text)
  }

  /** JavaScript's `a || b`: the left operand when it is truthy, otherwise the right one. */
  function Or(a: JsValue, b: JsValue): (r: JsValue)
    ensures Truthy(r) <==> Truthy(a) || Truthy(b)
    ensures Truthy(a) ==> r == a
    ensures !Truthy(a) ==> r == b
  {
    if Truthy(a) then a else b
  }

  /** The ECMAScript WhiteSpace and LineTerminator code points. */
  predicate IsSpace(c: char) {
    || c == '\t' || c == '\n' || c == '\U{B}' || c == '\U{C}' || c == '\r' || c == ' '
    || c == '\U{A0}' || c == '\U{1680}' || '\U{2000}' <= c <= '\U{200A}'
    || c == '\U{2028}' || c == '\U{2029}' || c == '\U{202F}' || c == '\U{205F}'
    || c == '\U{3000}' || c == '\U{FEFF}'
  }

  predicate NoSpace(s: string) {
    forall i :: 0 <= i < |s| ==> !IsSpace(s[i])
  }

  /** The number of white-space characters `s` starts with. */
  function LeadingSpaces(s: string): (k: nat)
    ensures k <= |s|
    ensures forall i :: 0 <= i < k ==> IsSpace(s[i])
    ensures k < |s| ==> !IsSpace(s[k])
  {
    if |s| > 0 && IsSpace(s[0]) then 1 + LeadingSpaces(s[1..]) else 0
  }

  /** The length of `s` once its trailing white space is cut off. */
  function ContentEnd(s: string): (j: nat)
    ensures j <= |s|
    ensures forall i :: j <= i < |s| ==> IsSpace(s[i])
    ensures 0 < j ==> !IsSpace(s[j - 1])
  {
    if |s| > 0 && IsSpace(s[|s| - 1]) then ContentEnd(s[..|s| - 1]) else |s|
  }

  /** `String.prototype.trim`. */
  function Trim(s: string): (r: string)
    ensures |r| <= |s|
    ensures r == [] || (!IsSpace(r[0]) && !IsSpace(r[|r| - 1]))
  {
    var t := s[LeadingSpaces(s)..];
    t[..ContentEnd(t)]
  }

  /** A string without white space at either end is its own trim. */
  lemma TrimKeepsInner(s: string)
    requires s == [] || (!IsSpace(s[0]) && !IsSpace(s[|s| - 1]))
    ensures Trim(s) == s
  {
    assert LeadingSpaces(s) == 0;
    assert s[0..] == s;
    assert ContentEnd(s) == |s|;
  }

  /** Trim cuts off exactly the white space at both ends and keeps the middle. */
  lemma TrimRemovesOuterSpace(s: string)
    ensures var k, r := LeadingSpaces(s), Trim(s);
      && k + |r| <= |s|
      && r == s[k..k + |r|]
      && (forall i :: 0 <= i < k ==> IsSpace(s[i]))
      && (forall i :: k + |r| <= i < |s| ==> IsSpace(s[i]))
      && (r == [] || (!IsSpace(r[0]) && !IsSpace(r[|r| - 1])))
  {
    var k := LeadingSpaces(s);
    var t := s[k..];
    var j := ContentEnd(t);
    assert Trim(s) == t[..j] == s[k..k + j];
    TailIsSpace(s, k, j);
  }

  lemma TailIsSpace(s: string, k: nat, j: nat)
    requires k <= |s| && j == ContentEnd(s[k..])
    ensures forall i :: k + j <= i < |s| ==> IsSpace(s[i])
  {
    var t := s[k..];
    forall i | k + j <= i < |s| ensures IsSpace(s[i]) {
      assert s[i] == t[i - k];
    }
  }

  /** A trimmed value is empty exactly when the original held only white space. */
  lemma TrimEmptyIffBlank(s: string)
    ensures Trim(s) == [] <==> forall i :: 0 <= i < |s| ==> IsSpace(s[i])
  {
    TrimRemovesOuterSpace(s);
    var k, r := LeadingSpaces(s), Trim(s);
    if r == [] {
      assert k == |s|;
    }
  }

  /** Trimming twice is trimming once. */
  lemma TrimIdempotent(s: string)
    ensures Trim(Trim(s)) == Trim(s)
  {
    TrimRemovesOuterSpace(s);
    var r := Trim(s);
    assert LeadingSpaces(r) == 0;
    assert r[0..] == r;
    assert ContentEnd(r) == |r|;
  }

  /** `toLowerCase` on one character; only ASCII capitals are mapped. */
  function LowerChar(c: char): char {
    if 'A' <= c <= 'Z' then (c as int + 32) as char else c
  }

  /** `String.prototype.toLowerCase`, restricted to ASCII capitals. */
  function ToLower(s: string): (r: string)
    ensures |r| == |s|
    ensures forall i :: 0 <= i < |r| ==> !('A' <= r[i] <= 'Z')
    ensures forall i :: 0 <= i < |r| && !('A' <= s[i] <= 'Z') ==> r[i] == s[i]
    ensures forall i :: 0 <= i < |s| && 'A' <= s[i] <= 'Z' ==> r[i] as int == s[i] as int + 32
  {
    seq(|s|, i requires 0 <= i < |s| => LowerChar(s[i]))
  }

  lemma ToLowerConcat(a: string, b: string)
    ensures ToLower(a + b) == ToLower(a) + ToLower(b)
  {
  }

  lemma ToLowerIdempotent(s: string)
    ensures ToLower(ToLower(s)) == ToLower(s)
  {
  }

  lemma LowerCharKeepsSpace(c: char)
    ensures IsSpace(LowerChar(c)) == IsSpace(c)
  {
  }

  lemma {:induction false} LeadingSpacesOfLower(s: string)
    ensures LeadingSpaces(ToLower(s)) == LeadingSpaces(s)
    decreases |s|
  {
    if |s| > 0 {
      LowerCharKeepsSpace(s[0]);
      assert ToLower(s)[1..] == ToLower(s[1..]);
      LeadingSpacesOfLower(s[1..]);
    }
  }

  lemma {:induction false} ContentEndOfLower(s: string)
    ensures ContentEnd(ToLower(s)) == ContentEnd(s)
    decreases |s|
  {
    if |s| > 0 {
      LowerCharKeepsSpace(s[|s| - 1]);
      assert ToLower(s)[..|s| - 1] == ToLower(s[..|s| - 1]);
      ContentEndOfLower(s[..|s| - 1]);
    }
  }

  /** Lower-casing a slice is slicing the lower-cased string. */
  lemma ToLowerSlice(s: string, a: nat, b: nat)
    requires a <= b <= |s|
    ensures ToLower(s)[a..b] == ToLower(s[a..b])
  {
  }

  /** Trimming and lower-casing commute, so the order in which a schema applies them does not matter. */
  lemma TrimLowerCommute(s: string)
    ensures Trim(ToLower(s)) == ToLower(Trim(s))
  {
    LeadingSpacesOfLower(s);
    var k := LeadingSpaces(s);
    var t := s[k..];
    ToLowerSlice(s, k, |s|);
    assert ToLower(s)[k..] == ToLower(t);
    ContentEndOfLower(t);
    ToLowerSlice(t, 0, ContentEnd(t));
    assert t[0..ContentEnd(t)] == t[..ContentEnd(t)];
  }

  /** The index of the first `c` in `s`, or `|s|` when there is none. */
  function IndexOf(s: string, c: char): (i: nat)
    ensures i <= |s|
    ensures forall k :: 0 <= k < i ==> s[k] != c
    ensures i < |s| ==> s[i] == c
  {
    if |s| == 0 || s[0] == c then 0 else 1 + IndexOf(s[1..], c)
  }

  /** `String.prototype.split` with a one-character separator. */
  function Split(s: string, sep: char): (parts: seq<string>)
    ensures |parts| >= 1
    ensures forall i :: 0 <= i < |parts| ==> sep !in parts[i]
    decreases |s|
  {
    var i := IndexOf(s, sep);
    if i == |s| then [s] else [s[..i]] + Split(s[i + 1..], sep)
  }

  /** `Array.prototype.join` with a one-character separator, the inverse of `Split`. */
  function Join(parts: seq<string>, sep: char): string
    requires |parts| >= 1
  {
    if |parts| == 1 then parts[0] else parts[0] + [sep] + Join(parts[1..], sep)
  }

  lemma {:induction false} JoinSplit(s: string, sep: char)
    ensures Join(Split(s, sep), sep) == s
    decreases |s|
  {
    var i := IndexOf(s, sep);
    if i < |s| {
      var parts := Split(s, sep);
      assert parts == [s[..i]] + Split(s[i + 1..], sep);
      assert parts[1..] == Split(s[i + 1..], sep);
      JoinSplit(s[i + 1..], sep);
      assert Join(parts, sep) == s[..i] + [sep] + Join(parts[1..], sep);
      assert s == s[..i] + [sep] + s[i + 1..];
    }
  }

  /** Splitting a string that has no separator gives the string back as the only part. */
  lemma SplitWithoutSeparator(s: string, sep: char)
    requires sep !in s
    ensures Split(s, sep) == [s]
  {
    assert IndexOf(s, sep) == |s|;
  }

  /** Splitting at a separator that follows a separator-free prefix. */
  lemma SplitAfterPrefix(a: string, sep: char, b: string)
    requires sep !in a
    ensures Split(a + [sep] + b, sep) == [a] + Split(b, sep)
  {
    var s := a + [sep] + b;
    assert s[|a|] == sep;
    assert forall k :: 0 <= k < |a| ==> s[k] == a[k];
    var i := IndexOf(s, sep);
    assert i == |a|;
    assert s[..i] == a && s[i + 1..] == b;
  }

  /** Splitting at the only separator gives the two sides. */
  lemma SplitTwo(a: string, sep: char, b: string)
    requires sep !in a && sep !in b
    ensures Split(a + [sep] + b, sep) == [a, b]
  {
    SplitAfterPrefix(a, sep, b);
    SplitWithoutSeparator(b, sep);
  }

  lemma {:induction false} SplitJoin(parts: seq<string>, sep: char)
    requires |parts| >= 1
    requires forall i :: 0 <= i < |parts| ==> sep !in parts[i]
    ensures Split(Join(parts, sep), sep) == parts
    decreases |parts|
  {
    if |parts| == 1 {
      SplitWithoutSeparator(parts[0], sep);
    } else {
      SplitAfterPrefix(parts[0], sep, Join(parts[1..], sep));
      SplitJoin(parts[1..], sep);
    }
  }

  /** `split` yields a second part exactly when the separator occurs. */
  lemma SplitHasSecondPart(s: string, sep: char)
    ensures |Split(s, sep)| >= 2 <==> sep in s
  {
    var i := IndexOf(s, sep);
    if sep in s {
      var k :| 0 <= k < |s| && s[k] == sep;
      assert i < |s|;
    }
  }

  /** Every character of `s` other than a separator sits inside one of the parts. */
  lemma {:induction false} PartOf(s: string, sep: char, k: nat) returns (i: nat, j: nat)
    requires k < |s| && s[k] != sep
    ensures i < |Split(s, sep)| && j < |Split(s, sep)[i]| && Split(s, sep)[i][j] == s[k]
    decreases |s|
  {
    var x := IndexOf(s, sep);
    if k < x {
      i, j := 0, k;
    } else {
      var rest := s[x + 1..];
      var i', j' := PartOf(rest, sep, k - x - 1);
      i, j := i' + 1, j';
    }
  }

  /** The first part is the prefix of `s` before the first separator. */
  lemma SplitFirstIsPrefix(s: string, sep: char)
    ensures Split(s, sep)[0] == s[..IndexOf(s, sep)]
  {
  }

  /** The last part is a suffix of `s`, after the last separator. */
  lemma {:induction false} SplitLastIsSuffix(s: string, sep: char)
    ensures var parts := Split(s, sep);
      |parts[|parts| - 1]| <= |s| && parts[|parts| - 1] == s[|s| - |parts[|parts| - 1]|..]
    decreases |s|
  {
    var x := IndexOf(s, sep);
    if x < |s| {
      var rest := s[x + 1..];
      SplitLastIsSuffix(rest, sep);
      assert Split(s, sep)[|Split(s, sep)| - 1] == Split(rest, sep)[|Split(rest, sep)| - 1];
    }
  }

  /** How many times `c` occurs in `s`. */
  function Count(s: string, c: char): nat {
    if s == [] then 0 else (if s[0] == c then 1 else 0) + Count(s[1..], c)
  }

  lemma {:induction false} CountAppend(a: string, b: string, c: char)
    ensures Count(a + b, c) == Count(a, c) + Count(b, c)
    decreases |a|
  {
    if a != [] {
      assert (a + b)[0] == a[0] && (a + b)[1..] == a[1..] + b;
      CountAppend(a[1..], b, c);
      assert Count(a + b, c) == (if a[0] == c then 1 else 0) + Count(a[1..] + b, c);
    } else {
      assert a + b == b;
    }
  }

  /** A string holds one separator fewer than `split` gives parts. */
  lemma {:induction false} CountIsPartsMinusOne(s: string, sep: char)
    ensures Count(s, sep) == |Split(s, sep)| - 1
    decreases |s|
  {
    var x := IndexOf(s, sep);
    if x < |s| {
      var rest := s[x + 1..];
      CountIsPartsMinusOne(rest, sep);
      CountAbsent(s[..x], sep);
      assert s == s[..x] + ([sep] + rest);
      CountAppend(s[..x], [sep] + rest, sep);
      assert ([sep] + rest)[1..] == rest;
    } else {
      CountAbsent(s, sep);
    }
  }

  lemma {:induction false} CountAbsent(s: string, c: char)
    requires forall i :: 0 <= i < |s| ==> s[i] != c
    ensures Count(s, c) == 0
    decreases |s|
  {
    if s != [] {
      CountAbsent(s[1..], c);
    }
  }
}
