/**
 * The two input validators of internal/utils/validation/validtion.go. Each is
 * a single anchored regular expression over the class `[a-zA-Z0-9_-]`; here
 * the expressions are written out as predicates on the characters.
 */
module Validation {

  /** The character class `[a-zA-Z0-9_-]`. */
  predicate WordChar(c: char) {
    ('a' <= c <= 'z') || ('A' <= c <= 'Z') || ('0' <= c <= '9') || c == '_' || c == '-'
  }

  /** `[a-zA-Z0-9_-]+`: one or more characters of the class. */
  predicate Word(s: string) {
    s != "" && forall i | 0 <= i < |s| :: WordChar(s[i])
  }

  /** `^[a-zA-Z0-9_-]{4,16}$`. */
  predicate IsUsername(s: string) {
    4 <= |s| <= 16 && forall i | 0 <= i < |s| :: WordChar(s[i])
  }

  /**
   * `^[a-zA-Z0-9_-]+@[a-zA-Z0-9_-]+\.[a-zA-Z0-9_-]+$`: the text splits at an
   * '@' and a later '.' into three non-empty words.
   */
  predicate IsEmail(s: string) {
    exists i, j | 0 <= i < j < |s| ::
      s[i] == '@' && s[j] == '.' && Word(s[..i]) && Word(s[i + 1..j]) && Word(s[j + 1..])
  }

  /** How many times `c` occurs in `s`. */
  function Count(s: string, c: char): (n: nat)
    ensures n <= |s|
    ensures n == 0 <==> c !in s
  {
    if s == [] then 0 else (if s[0] == c then 1 else 0) + Count(s[1..], c)
  }

  lemma {:induction false} CountAppend(a: string, b: string, c: char)
    ensures Count(a + b, c) == Count(a, c) + Count(b, c)
    decreases |a|
  {
    if a == [] {
      assert a + b == b;
    } else {
      assert (a + b)[1..] == a[1..] + b;
      CountAppend(a[1..], b, c);
    }
  }

  /** Three words joined by '@' and '.' always form an email address. */
  lemma EmailOfParts(local: string, domain: string, top: string)
    requires Word(local) && Word(domain) && Word(top)
    ensures IsEmail(local + "@" + domain + "." + top)
  {
    var s := local + "@" + domain + "." + top;
    var i, j := |local|, |local| + 1 + |domain|;
    assert s[..i] == local;
    assert s[i + 1..j] == domain;
    assert s[j + 1..] == top;
    assert s[i] == '@' && s[j] == '.';
  }

  /** Every email address is three words joined by '@' and '.', and nothing else. */
  lemma EmailHasParts(s: string)
    requires IsEmail(s)
    ensures exists local, domain, top | Word(local) && Word(domain) && Word(top) ::
              s == local + "@" + domain + "." + top
  {
    var i, j :| 0 <= i < j < |s| && s[i] == '@' && s[j] == '.'
                && Word(s[..i]) && Word(s[i + 1..j]) && Word(s[j + 1..]);
    Reassemble(s, i, j);
  }

  /** A text is its pieces around an '@' and a later '.'. */
  lemma Reassemble(s: string, i: int, j: int)
    requires 0 <= i < j < |s| && s[i] == '@' && s[j] == '.'
    ensures s == s[..i] + "@" + s[i + 1..j] + "." + s[j + 1..]
  {
    assert s[..i + 1] == s[..i] + "@";
    assert s[..j] == s[..i + 1] + s[i + 1..j];
    assert s[..j + 1] == s[..j] + ".";
    assert s == s[..j + 1] + s[j + 1..];
  }

  /** A word contains neither separator. */
  lemma WordHasNoSeparator(w: string)
    requires forall i | 0 <= i < |w| :: WordChar(w[i])
    ensures Count(w, '@') == 0 && Count(w, '.') == 0
  {
    assert forall k | 0 <= k < |w| :: w[k] != '@' && w[k] != '.';
  }

  lemma CountJoined(a: string, b: string, c: string)
    requires Count(a, '@') == 0 && Count(b, '@') == 0 && Count(c, '@') == 0
    requires Count(a, '.') == 0 && Count(b, '.') == 0 && Count(c, '.') == 0
    ensures Count(a + "@" + b + "." + c, '@') == 1 && Count(a + "@" + b + "." + c, '.') == 1
  {
    CountAppend(a, "@", '@');
    CountAppend(a, "@", '.');
    CountAppend(a + "@", b, '@');
    CountAppend(a + "@", b, '.');
    CountAppend(a + "@" + b, ".", '@');
    CountAppend(a + "@" + b, ".", '.');
    CountAppend(a + "@" + b + ".", c, '@');
    CountAppend(a + "@" + b + ".", c, '.');
  }

  /** A valid email address holds exactly one '@' and exactly one '.'. */
  lemma EmailSeparatorsUnique(s: string)
    requires IsEmail(s)
    ensures Count(s, '@') == 1 && Count(s, '.') == 1
  {
    EmailHasParts(s);
    var a, b, c :| Word(a) && Word(b) && Word(c) && s == a + "@" + b + "." + c;
    WordHasNoSeparator(a);
    WordHasNoSeparator(b);
    WordHasNoSeparator(c);
    CountJoined(a, b, c);
  }

  /**
   * No text is both a username and an email address: '@' is outside the
   * username class. Login relies on this to pick its lookup.
   */
  lemma NoUsernameIsEmail(s: string)
    ensures !(IsUsername(s) && IsEmail(s))
  {
    if IsEmail(s) {
      var i, j :| 0 <= i < j < |s| && s[i] == '@' && s[j] == '.'
                  && Word(s[..i]) && Word(s[i + 1..j]) && Word(s[j + 1..]);
      assert !WordChar(s[i]);
    }
  }
}
