/** The referral-code rule of the user schema's pre-save hook
    (server/server.js): lower-case the name, delete every run of whitespace,
    append the year suffix. Letters and whitespace are restricted to ASCII. */
module ReferralCode {

  const Suffix: string := "2025"

  /** The ASCII members of JavaScript's `\s` class. */
  predicate IsWhitespace(c: char) {
    c == ' ' || c == '\t' || c == '\n' || c == '\r' || c == '\U{B}' || c == '\U{C}'
  }

  predicate IsUpper(c: char) {
    'A' <= c <= 'Z'
  }

  function ToLower(c: char): (r: char)
    ensures !IsUpper(r)
    ensures IsWhitespace(r) <==> IsWhitespace(c)
    ensures !IsUpper(c) ==> r == c
    ensures IsUpper(c) ==> 'a' <= r <= 'z' && r as int - 'a' as int == c as int - 'A' as int
  {
    if IsUpper(c) then (c as int - 'A' as int + 'a' as int) as char else c
  }

  /** `toLowerCase()`, character by character. */
  function Lower(s: string): (r: string)
    ensures |r| == |s|
    ensures forall i {:trigger r[i]} :: 0 <= i < |s| ==> r[i] == ToLower(s[i])
  {
    if s == [] then [] else [ToLower(s[0])] + Lower(s[1..])
  }

  /** `replace(/\s+/g, '')`: every whitespace character goes, the rest keeps its order. */
  function StripWhitespace(s: string): (r: string)
    ensures |r| <= |s|
    ensures forall i :: 0 <= i < |r| ==> !IsWhitespace(r[i])
  {
    if s == [] then []
    else if IsWhitespace(s[0]) then StripWhitespace(s[1..])
    else [s[0]] + StripWhitespace(s[1..])
  }

  predicate NoWhitespace(s: string) {
    forall i :: 0 <= i < |s| ==> !IsWhitespace(s[i])
  }

  predicate NoUpper(s: string) {
    forall i :: 0 <= i < |s| ==> !IsUpper(s[i])
  }

  /** The normalised name that the code is built from. */
  function NameCode(name: string): string {
    StripWhitespace(Lower(name))
  }

  /** The referral code derived from `name`. */
  function CodeFor(name: string): (code: string)
    ensures |code| >= |Suffix| && code[|code| - |Suffix|..] == Suffix
    ensures code[..|code| - |Suffix|] == NameCode(name)
    ensures NoWhitespace(code) && NoUpper(code)
    ensures code != ""
  {
    var c := NameCode(name) + Suffix;
    LowerHasNoUpper(name);
    StripKeepsNoUpper(Lower(name));
    c
  }

  lemma LowerHasNoUpper(s: string)
    ensures NoUpper(Lower(s))
  {
  }

  lemma {:induction false} StripKeepsNoUpper(s: string)
    requires NoUpper(s)
    ensures NoUpper(StripWhitespace(s))
  {
    if s != [] {
      StripKeepsNoUpper(s[1..]);
    }
  }

  /** Stripping distributes over concatenation. */
  lemma {:induction false} StripAppend(a: string, b: string)
    ensures StripWhitespace(a + b) == StripWhitespace(a) + StripWhitespace(b)
  {
    if a == [] {
      assert a + b == b;
    } else {
      assert (a + b)[0] == a[0];
      assert (a + b)[1..] == a[1..] + b;
      StripAppend(a[1..], b);
    }
  }

  /** A single whitespace character is deleted. */
  lemma StripDropsWhitespace(c: char)
    requires IsWhitespace(c)
    ensures StripWhitespace([c]) == []
  {
    assert [c][1..] == [];
  }

  /** A string with no whitespace is left as it is. */
  lemma {:induction false} StripIdentity(s: string)
    requires NoWhitespace(s)
    ensures StripWhitespace(s) == s
  {
    if s != [] {
      StripIdentity(s[1..]);
    }
  }

  lemma LowerKeepsNoWhitespace(s: string)
    requires NoWhitespace(s)
    ensures NoWhitespace(Lower(s))
  {
  }

  /** Lower-casing leaves an all-lower-case string unchanged. */
  lemma LowerIdentity(s: string)
    requires NoUpper(s)
    ensures Lower(s) == s
  {
  }

  /** Normalising a normalised name changes nothing: a name that is already
      lower case without whitespace gets that same name as its code stem. */
  lemma NameCodeIdempotent(name: string)
    ensures NameCode(NameCode(name)) == NameCode(name)
  {
    var n := NameCode(name);
    LowerHasNoUpper(name);
    StripKeepsNoUpper(Lower(name));
    LowerIdentity(n);
    StripIdentity(n);
  }

  /** Two names get the same code exactly when they normalise alike. */
  lemma CodeCollision(a: string, b: string)
    ensures CodeFor(a) == CodeFor(b) <==> NameCode(a) == NameCode(b)
  {
    if CodeFor(a) == CodeFor(b) {
      assert CodeFor(a)[..|CodeFor(a)| - |Suffix|] == CodeFor(b)[..|CodeFor(b)| - |Suffix|];
    }
  }

  /** The code stem of a two-word name "First Last" is the two words lower-cased and joined. */
  lemma NameCodeOfTwoWords(first: string, last: string)
    requires NoWhitespace(first) && NoWhitespace(last)
    ensures NameCode(first + " " + last) == Lower(first) + Lower(last)
  {
    var lf, ll := Lower(first), Lower(last);
    assert Lower(first + " " + last) == lf + " " + ll;
    LowerKeepsNoWhitespace(first);
    LowerKeepsNoWhitespace(last);
    calc {
      NameCode(first + " " + last);
      StripWhitespace(lf + " " + ll);
      { StripAppend(lf + " ", ll); }
      StripWhitespace(lf + " ") + StripWhitespace(ll);
      { StripAppend(lf, " "); }
      StripWhitespace(lf) + StripWhitespace(" ") + StripWhitespace(ll);
      { StripIdentity(lf); StripIdentity(ll); assert StripWhitespace(" ") == []; }
      lf + [] + ll;
      { assert lf + [] == lf; }
      lf + ll;
    }
  }

  lemma CodeOfTwoWords(first: string, last: string)
    requires NoWhitespace(first) && NoWhitespace(last)
    ensures CodeFor(first + " " + last) == Lower(first) + Lower(last) + Suffix
  {
    NameCodeOfTwoWords(first, last);
  }

  /** A name whose first two characters are not whitespace has a code that
      starts with those two characters lower-cased. */
  lemma CodeLeadingLetters(name: string)
    requires |name| >= 2 && !IsWhitespace(name[0]) && !IsWhitespace(name[1])
    ensures |CodeFor(name)| >= 2 && CodeFor(name)[..2] == [ToLower(name[0]), ToLower(name[1])]
  {
    var l := Lower(name);
    assert l == [l[0]] + ([l[1]] + l[2..]);
    StripAppend([l[0]], [l[1]] + l[2..]);
    StripAppend([l[1]], l[2..]);
    assert StripWhitespace([l[0]]) == [l[0]];
    assert StripWhitespace([l[1]]) == [l[1]];
    var c := CodeFor(name);
    assert c == [l[0], l[1]] + StripWhitespace(l[2..]) + Suffix;
  }

  lemma StemOfJohnDoe()
    ensures NameCode("John Doe") == "johndoe"
  {
    assert NoWhitespace("John") && NoWhitespace("Doe");
    NameCodeOfTwoWords("John", "Doe");
    assert "John" + " " + "Doe" == "John Doe";
    assert Lower("John") + Lower("Doe") == "johndoe";
  }

  lemma StemOfJohndoe()
    ensures NameCode("johndoe") == "johndoe"
  {
    assert NoUpper("johndoe") && NoWhitespace("johndoe");
    LowerIdentity("johndoe");
    StripIdentity("johndoe");
  }

  /** "John Doe" and "johndoe" are different names with one code. */
  lemma CollidingNames()
    ensures "John Doe" != "johndoe" && CodeFor("John Doe") == CodeFor("johndoe") == "johndoe2025"
  {
    CodeOfJohnDoe();
    CodeOfJohndoe();
    assert |"John Doe"| != |"johndoe"|;
  }

  lemma CodeOfJohnDoe()
    ensures CodeFor("John Doe") == "johndoe2025"
  {
    StemOfJohnDoe();
    JohndoeWithSuffix();
    CodeOfStem("John Doe", "johndoe", "johndoe2025");
  }

  lemma CodeOfJohndoe()
    ensures CodeFor("johndoe") == "johndoe2025"
  {
    StemOfJohndoe();
    JohndoeWithSuffix();
    CodeOfStem("johndoe", "johndoe", "johndoe2025");
  }

  lemma JohndoeWithSuffix()
    ensures "johndoe" + Suffix == "johndoe2025"
  {
  }

  /** A name's code is its normalised form followed by the suffix. */
  lemma CodeOfStem(name: string, stem: string, code: string)
    requires NameCode(name) == stem && stem + Suffix == code
    ensures CodeFor(name) == code
  {
  }
}
