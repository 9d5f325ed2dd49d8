/**
  The sign-up password rules (auth.js). A JavaScript string is a sequence of
  UTF-16 code units: `length` counts code units and the regular expressions
  `/[A-Z]/`, `/[0-9]/` and `/[@$!%*?&]/` test code units.
 */
module Password {

  newtype CodeUnit = x: int | 0 <= x < 0x1_0000

  /** The three character classes the rules test for. */
  datatype CharClass = Upper | Digit | Special

  predicate InClass(u: CodeUnit, cls: CharClass)
  {
    match cls
    case Upper => 'A' as int <= u as int <= 'Z' as int
    case Digit => '0' as int <= u as int <= '9' as int
    case Special => u as int in ['@' as int, '$' as int, '!' as int, '%' as int, '*' as int, '?' as int, '&' as int]
  }

  /** `/[...]/.test(s)`: scan the string for a code unit of the class. */
  predicate Test(cls: CharClass, s: seq<CodeUnit>)
  {
    |s| > 0 && (InClass(s[0], cls) || Test(cls, s[1..]))
  }

  /** Some code unit of `s` belongs to the class. */
  ghost predicate Contains(s: seq<CodeUnit>, cls: CharClass)
  {
    exists i :: 0 <= i < |s| && InClass(s[i], cls)
  }

  /** The scan succeeds exactly when some code unit belongs to the class. */
  lemma {:induction false} TestIsContains(cls: CharClass, s: seq<CodeUnit>)
    ensures Test(cls, s) <==> Contains(s, cls)
  {
    if |s| > 0 {
      TestIsContains(cls, s[1..]);
      if Contains(s, cls) && !InClass(s[0], cls) {
        var i :| 0 <= i < |s| && InClass(s[i], cls);
        assert InClass(s[1..][i - 1], cls);
      }
      if Contains(s[1..], cls) {
        var i :| 0 <= i < |s| - 1 && InClass(s[1..][i], cls);
        assert InClass(s[i + 1], cls);
      }
    }
  }

  /** Appending code units never makes a satisfied class test fail. */
  lemma {:induction false} TestMonotone(cls: CharClass, s: seq<CodeUnit>, t: seq<CodeUnit>)
    requires Test(cls, s)
    ensures Test(cls, s + t)
  {
    assert (s + t)[0] == s[0];
    if !InClass(s[0], cls) {
      TestMonotone(cls, s[1..], t);
      assert (s + t)[1..] == s[1..] + t;
    }
  }

  /** The four rule verdicts, in the order the page lists them. */
  datatype Rules = Rules(length: bool, uppercase: bool, number: bool, special: bool)

  /** The live indicator: each rule's element is marked valid when its test passes. */
  function LiveIndicators(pass: seq<CodeUnit>): Rules
  {
    Rules(|pass| >= 8, Test(Upper, pass), Test(Digit, pass), Test(Special, pass))
  }

  /** The outcome of submitting the sign-up form. */
  datatype SignupStep = Rejected | CreateAccount

  /**
    The submit gate: account creation is attempted exactly when the password
    has at least eight code units, an upper-case letter A-Z, a digit 0-9 and
    one of `@ $ ! % * ? &`; failing any rule stops the submission first.
   */
  function SubmitGate(password: seq<CodeUnit>): (r: SignupStep)
    ensures r == CreateAccount <==>
      |password| >= 8 && Contains(password, Upper) && Contains(password, Digit) && Contains(password, Special)
  {
    var isLengthValid := |password| >= 8;
    var isUppercaseValid := Test(Upper, password);
    var isNumberValid := Test(Digit, password);
    var isSpecialValid := Test(Special, password);
    TestIsContains(Upper, password);
    TestIsContains(Digit, password);
    TestIsContains(Special, password);
    if !isLengthValid || !isUppercaseValid || !isNumberValid || !isSpecialValid then Rejected
    else CreateAccount
  }

  /** The indicator shows every rule as met exactly when the submit gate lets the password through. */
  lemma IndicatorsAgreeWithGate(pass: seq<CodeUnit>)
    ensures var r := LiveIndicators(pass);
      (r.length && r.uppercase && r.number && r.special) <==> SubmitGate(pass) == CreateAccount
    ensures LiveIndicators(pass).length <==> |pass| >= 8
    ensures LiveIndicators(pass).uppercase <==> Contains(pass, Upper)
    ensures LiveIndicators(pass).number <==> Contains(pass, Digit)
    ensures LiveIndicators(pass).special <==> Contains(pass, Special)
  {
    TestIsContains(Upper, pass);
    TestIsContains(Digit, pass);
    TestIsContains(Special, pass);
  }

  /** Appending to an accepted password keeps it accepted. */
  lemma AcceptedMonotone(password: seq<CodeUnit>, more: seq<CodeUnit>)
    requires SubmitGate(password) == CreateAccount
    ensures SubmitGate(password + more) == CreateAccount
  {
    TestIsContains(Upper, password);
    TestIsContains(Digit, password);
    TestIsContains(Special, password);
    TestMonotone(Upper, password, more);
    TestMonotone(Digit, password, more);
    TestMonotone(Special, password, more);
    TestIsContains(Upper, password + more);
    TestIsContains(Digit, password + more);
    TestIsContains(Special, password + more);
  }

  // ---------------------------------------------------------------- from characters to code units

  /** The UTF-16 encoding of one Unicode scalar value: one code unit, or a surrogate pair. */
  function EncodeChar(c: char): (u: seq<CodeUnit>)
  {
    var n := c as int;
    if n < 0x1_0000 then [n as CodeUnit]
    else [(0xD800 + (n - 0x1_0000) / 0x400) as CodeUnit, (0xDC00 + (n - 0x1_0000) % 0x400) as CodeUnit]
  }

  /** The string the form field holds, as the code units JavaScript sees. */
  function Utf16(s: string): (u: seq<CodeUnit>)
    ensures |u| >= |s|
  {
    if s == [] then [] else EncodeChar(s[0]) + Utf16(s[1..])
  }

  /** A typed character belongs to the class (only characters of the Basic Multilingual Plane can). */
  predicate CharInClass(c: char, cls: CharClass)
  {
    c as int < 0x1_0000 && InClass(c as int as CodeUnit, cls)
  }

  /**
    The class tests see exactly the characters typed: every class is ASCII,
    and the two halves of a surrogate pair belong to none of them.
   */
  lemma {:induction false} Utf16Classes(s: string, cls: CharClass)
    ensures Test(cls, Utf16(s)) <==> exists i :: 0 <= i < |s| && CharInClass(s[i], cls)
  {
    if s != [] {
      Utf16Classes(s[1..], cls);
      var e := EncodeChar(s[0]);
      TestAppend(cls, e, Utf16(s[1..]));
      if s[0] as int >= 0x1_0000 {
        assert !InClass(e[0], cls) && !InClass(e[1], cls);
        assert !Test(cls, e) by {
          assert e[1..][0] == e[1];
          assert e[1..][1..] == [];
          assert !Test(cls, e[1..]);
        }
      } else {
        assert Test(cls, e) <==> InClass(e[0], cls) by {
          assert e[1..] == [];
        }
      }
      if exists i :: 1 <= i < |s| && CharInClass(s[i], cls) {
        var i :| 1 <= i < |s| && CharInClass(s[i], cls);
        assert CharInClass(s[1..][i - 1], cls);
      }
      if exists i :: 0 <= i < |s| - 1 && CharInClass(s[1..][i], cls) {
        var i :| 0 <= i < |s| - 1 && CharInClass(s[1..][i], cls);
        assert CharInClass(s[i + 1], cls);
      }
    }
  }

  /** A class test of two strings joined is the test of either. */
  lemma {:induction false} TestAppend(cls: CharClass, s: seq<CodeUnit>, t: seq<CodeUnit>)
    ensures Test(cls, s + t) <==> Test(cls, s) || Test(cls, t)
  {
    if s == [] {
      assert s + t == t;
    } else {
      TestAppend(cls, s[1..], t);
      assert (s + t)[0] == s[0];
      assert (s + t)[1..] == s[1..] + t;
    }
  }

  /**
    The length rule counts code units: eight typed characters always meet
    it, and so do four characters outside the Basic Multilingual Plane.
   */
  lemma LengthCountsCodeUnits()
    ensures forall s: string :: |s| >= 8 ==> |Utf16(s)| >= 8
    ensures |Utf16("\U{1F600}\U{1F600}\U{1F600}\U{1F600}")| == 8
  {
  }
}
