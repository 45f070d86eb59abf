/**
 The email normalisation of the registration form: the submitted email, or the
 empty string when none was submitted, with surrounding whitespace removed and
 letters lowercased, as Python's `email.strip().lower()` computes it.
 */
module Forms {

  import opened Wrappers

  /**
   Python's `str.isspace` for one code point. Among the ASCII characters these
   are exactly the blank, `\t \n \v \f \r` and the four separators `\x1c`-`\x1f`;
   no whitespace character is a capital letter.
   */
  predicate IsSpace(c: char): (b: bool)
    ensures c < '\U{80}' ==> (b <==> c in " \t\n\r\U{0B}\U{0C}\U{1C}\U{1D}\U{1E}\U{1F}")
    ensures b ==> !('A' <= c <= 'Z')
  {
    || '\t' <= c <= '\r'
    || '\U{1C}' <= c <= ' '
    || c == '\U{85}' || c == '\U{A0}' || c == '\U{1680}'
    || '\U{2000}' <= c <= '\U{200A}'
    || c == '\U{2028}' || c == '\U{2029}'
    || c == '\U{202F}' || c == '\U{205F}' || c == '\U{3000}'
  }

  /** An ASCII capital letter. */
  predicate IsUpper(c: char) {
    'A' <= c <= 'Z'
  }

  predicate AllSpace(s: string) {
    forall i | 0 <= i < |s| :: IsSpace(s[i])
  }

  /** Every character of `s` at a position in `[lo, hi)` is whitespace. */
  predicate SpaceBetween(s: string, lo: int, hi: int)
    requires 0 <= lo && hi <= |s|
  {
    forall i | lo <= i < hi :: IsSpace(s[i])
  }

  predicate NoEdgeSpace(s: string) {
    s == [] || (!IsSpace(s[0]) && !IsSpace(s[|s| - 1]))
  }

  predicate NoUpper(s: string) {
    forall i | 0 <= i < |s| :: !IsUpper(s[i])
  }

  /** Cutting `s` at `i` leaves `t` in the middle, only whitespace on either side, and no whitespace at the edges of `t`. */
  predicate IsTrimCut(s: string, i: int, t: string) {
    && 0 <= i <= |s| - |t|
    && s[i..i + |t|] == t
    && SpaceBetween(s, 0, i)
    && SpaceBetween(s, i + |t|, |s|)
    && NoEdgeSpace(t)
  }

  /** `t` is what remains of `s` once all leading and all trailing whitespace is cut off. */
  ghost predicate IsTrimOf(s: string, t: string) {
    exists i :: IsTrimCut(s, i, t)
  }

  /** Python's `str.lower` on one character, for the ASCII letters. */
  function ToLowerChar(c: char): (d: char)
    ensures !IsUpper(d)
    ensures IsUpper(c) ==> 'a' <= d <= 'z' && d as int - c as int == 'a' as int - 'A' as int
    ensures !IsUpper(c) ==> d == c
    ensures IsSpace(d) <==> IsSpace(c)
  {
    if IsUpper(c) then (c as int - 'A' as int + 'a' as int) as char else c
  }

  /** Python's `str.lower`: every character lowered, in place, so no capital is left. */
  function Lower(s: string): (r: string)
    ensures |r| == |s|
    ensures forall i | 0 <= i < |s| :: r[i] == ToLowerChar(s[i])
    ensures NoUpper(r)
  {
    seq(|s|, i requires 0 <= i < |s| => ToLowerChar(s[i]))
  }

  /** The first position at or after `i` that does not hold whitespace (or `|s|`): the forward scan of `str.strip`. */
  function SkipSpaceForward(s: string, i: nat): (n: nat)
    requires i <= |s|
    ensures i <= n <= |s|
    ensures SpaceBetween(s, i, n)
    ensures n == |s| || !IsSpace(s[n])
    decreases |s| - i
  {
    if i < |s| && IsSpace(s[i]) then SkipSpaceForward(s, i + 1) else i
  }

  /** Scanning back from `j`, but not below `lo`, the end of the last non-whitespace run: the backward scan of `str.strip`. */
  function SkipSpaceBackward(s: string, lo: nat, j: nat): (m: nat)
    requires lo <= j <= |s|
    ensures lo <= m <= j
    ensures SpaceBetween(s, m, j)
    ensures m == lo || !IsSpace(s[m - 1])
    decreases j
  {
    if lo < j && IsSpace(s[j - 1]) then SkipSpaceBackward(s, lo, j - 1) else j
  }

  /** Python's `str.strip()`: the result is the trim of `s`. */
  function Strip(s: string): (r: string)
    ensures IsTrimOf(s, r)
  {
    var i := SkipSpaceForward(s, 0);
    var j := SkipSpaceBackward(s, i, |s|);
    assert IsTrimCut(s, i, s[i..j]);
    s[i..j]
  }

  /**
   The value `cleaned_data.get("email") or ""` reads: empty exactly when the
   email is missing or empty, and otherwise the submitted string itself.
   */
  function Submitted(email: Option<string>): (r: string)
    ensures r == "" <==> email == None || email == Some("")
    ensures r != "" ==> email == Some(r)
  {
    match email
    case None => ""
    case Some(s) => s
  }

  /**
   `RegistrationForm.clean_email`: a missing (or empty) submission counts as
   the empty string, which is then stripped and lowercased.
   */
  function CleanEmail(email: Option<string>): (r: string)
    ensures |r| <= |Submitted(email)|
    ensures NoEdgeSpace(r)
    ensures NoUpper(r)
  {
    var t := Strip(Submitted(email));
    TrimLength(Submitted(email), t);
    LowerKeepsNoEdgeSpace(t);
    Lower(t)
  }

  lemma TrimLength(s: string, t: string)
    requires IsTrimOf(s, t)
    ensures |t| <= |s|
  {
  }

  /** Lowering neither creates nor removes whitespace at the edges. */
  lemma LowerKeepsNoEdgeSpace(t: string)
    requires NoEdgeSpace(t)
    ensures NoEdgeSpace(Lower(t))
  {
  }

  /** Lowering a string that has no capitals changes nothing. */
  lemma LowerKeepsLowered(s: string)
    requires NoUpper(s)
    ensures Lower(s) == s
  {
  }

  /**
   Any trim cut of `s` yields `Strip(s)`: the two scans can stop only at the
   ends of the cut's middle part.
   */
  lemma TrimCutIsStrip(s: string, i: int, t: string)
    requires IsTrimCut(s, i, t)
    ensures Strip(s) == t
  {
  }

  /** A string has exactly one trim, and it is `Strip`'s result. */
  lemma TrimIsUnique(s: string, t: string)
    requires IsTrimOf(s, t)
    ensures t == Strip(s)
  {
    var i :| IsTrimCut(s, i, t);
    TrimCutIsStrip(s, i, t);
  }

  /** A string without edge whitespace is its own `Strip`. */
  lemma StripKeepsTrimmed(t: string)
    requires NoEdgeSpace(t)
    ensures Strip(t) == t
  {
    assert t[0..0 + |t|] == t;
    TrimCutIsStrip(t, 0, t);
  }

  /** Whitespace put around `s` moves a trim cut of `s` along and keeps it a trim cut. */
  lemma TrimCutOfPadded(p: string, s: string, q: string, i: int, t: string)
    requires AllSpace(p) && AllSpace(q) && IsTrimCut(s, i, t)
    ensures IsTrimCut(p + s + q, |p| + i, t)
  {
    var w := p + s + q;
    var j := |p| + i;
    assert w[j..j + |t|] == s[i..i + |t|];
    forall k | 0 <= k < j ensures IsSpace(w[k]) {
      if k < |p| { assert w[k] == p[k]; } else { assert w[k] == s[k - |p|]; }
    }
    forall k | j + |t| <= k < |w| ensures IsSpace(w[k]) {
      if k < |p| + |s| { assert w[k] == s[k - |p|]; } else { assert w[k] == q[k - |p| - |s|]; }
    }
  }

  /** Whitespace around a string does not change its `Strip`. */
  lemma StripIgnoresEdgeSpace(p: string, s: string, q: string)
    requires AllSpace(p) && AllSpace(q)
    ensures Strip(p + s + q) == Strip(s)
  {
    var t := Strip(s);
    var i :| IsTrimCut(s, i, t);
    TrimCutOfPadded(p, s, q, i, t);
    TrimCutIsStrip(p + s + q, |p| + i, t);
  }

  /** Lowering keeps a trim cut a trim cut, at the same place. */
  lemma TrimCutOfLowered(s: string, i: int, t: string)
    requires IsTrimCut(s, i, t)
    ensures IsTrimCut(Lower(s), i, Lower(t))
  {
    var ls, lt := Lower(s), Lower(t);
    assert ls[i..i + |lt|] == lt;
    LowerKeepsNoEdgeSpace(t);
  }

  /** Trimming and lowering commute, since lowering neither creates nor removes whitespace. */
  lemma StripLowerCommute(s: string)
    ensures Strip(Lower(s)) == Lower(Strip(s))
  {
    var t := Strip(s);
    var i :| IsTrimCut(s, i, t);
    TrimCutOfLowered(s, i, t);
    TrimCutIsStrip(Lower(s), i, Lower(t));
  }

  /** With no submission, or an empty one, the cleaned email is empty. */
  lemma MissingEmailCleansToEmpty()
    ensures CleanEmail(None) == ""
    ensures CleanEmail(Some("")) == ""
  {
  }

  /**
   The cleaned email is the lowering of the middle of the submission, between
   its leading and its trailing whitespace: such a middle exists, and the
   cleaned email is the lowering of every one, so interior characters, interior
   blanks included, keep their order and number.
   */
  lemma CleanEmailLowersTheMiddle(email: Option<string>)
    ensures exists i, t :: IsTrimCut(Submitted(email), i, t) && CleanEmail(email) == Lower(t)
    ensures forall i, t | IsTrimCut(Submitted(email), i, t) :: CleanEmail(email) == Lower(t)
  {
    var s := Submitted(email);
    var t := Strip(s);
    var i :| IsTrimCut(s, i, t);
    assert CleanEmail(email) == Lower(t);
    forall j, u | IsTrimCut(s, j, u) ensures CleanEmail(email) == Lower(u) {
      TrimCutIsStrip(s, j, u);
    }
  }

  /** A trimmed email without capitals is left as it is. */
  lemma CleanedFormIsFixed(t: string)
    requires NoEdgeSpace(t) && NoUpper(t)
    ensures CleanEmail(Some(t)) == t
  {
    StripKeepsTrimmed(t);
    LowerKeepsLowered(t);
  }

  /** Cleaning an already cleaned email returns it unchanged. */
  lemma CleanEmailIsIdempotent(email: Option<string>)
    ensures CleanEmail(Some(CleanEmail(email))) == CleanEmail(email)
  {
    CleanedFormIsFixed(CleanEmail(email));
  }

  /** Whitespace added around an email does not change its cleaned form. */
  lemma EdgeSpaceIsIgnored(p: string, s: string, q: string)
    requires AllSpace(p) && AllSpace(q)
    ensures CleanEmail(Some(p + s + q)) == CleanEmail(Some(s))
  {
    StripIgnoresEdgeSpace(p, s, q);
  }

  /** Emails that differ only in letter case clean to the same value. */
  lemma CaseIsIgnored(a: string, b: string)
    requires Lower(a) == Lower(b)
    ensures CleanEmail(Some(a)) == CleanEmail(Some(b))
  {
    StripLowerCommute(a);
    StripLowerCommute(b);
  }

  /** Emails that differ only in letter case and in surrounding whitespace clean to the same value. */
  lemma CaseAndEdgeSpaceAreIgnored(p: string, a: string, q: string, b: string)
    requires AllSpace(p) && AllSpace(q) && Lower(a) == Lower(b)
    ensures CleanEmail(Some(p + a + q)) == CleanEmail(Some(b))
  {
    EdgeSpaceIsIgnored(p, a, q);
    CaseIsIgnored(a, b);
  }

  /** The example `"  Foo@BAR.com "`, step one: the surrounding blanks are ignored. */
  lemma ExampleEdgeSpace()
    ensures CleanEmail(Some("  Foo@BAR.com ")) == CleanEmail(Some("Foo@BAR.com"))
  {
    assert "  Foo@BAR.com " == "  " + "Foo@BAR.com" + " ";
    EdgeSpaceIsIgnored("  ", "Foo@BAR.com", " ");
  }

  /** Step two: both spellings lower to the lowercase one. */
  lemma ExampleLowersAlike()
    ensures Lower("Foo@BAR.com") == Lower("foo@bar.com")
  {
    LowerKeepsLowered("foo@bar.com");
  }

  /** Step three: so the capitals are ignored. */
  lemma ExampleLetterCase()
    ensures CleanEmail(Some("Foo@BAR.com")) == CleanEmail(Some("foo@bar.com"))
  {
    ExampleLowersAlike();
    CaseIsIgnored("Foo@BAR.com", "foo@bar.com");
  }

  /** Step four: the lowercase, trimmed form is its own cleaning. */
  lemma ExampleCleanedForm()
    ensures CleanEmail(Some("foo@bar.com")) == "foo@bar.com"
  {
    CleanedFormIsFixed("foo@bar.com");
  }

  /** The example `"  Foo@BAR.com "` cleans to `"foo@bar.com"`. */
  lemma CleanEmailExample()
    ensures CleanEmail(Some("  Foo@BAR.com ")) == "foo@bar.com"
  {
    ExampleEdgeSpace();
    ExampleLetterCase();
    ExampleCleanedForm();
  }
}
