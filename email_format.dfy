/** The e-mail pattern `^[^\s@]+@[^\s@]+\.[^\s@]+$` that both signup validators test. */
module EmailFormat {
  import opened Common
  import opened Strings

  /** The characters `\s` matches in an ECMAScript regular expression. */
  predicate IsSpace(c: char) {
    c == ' ' || c == '\t' || c == '\n' || c == '\U{B}' || c == '\U{C}' || c == '\r'
    || c == '\U{A0}' || c == '\U{1680}' || ('\U{2000}' <= c <= '\U{200A}')
    || c == '\U{2028}' || c == '\U{2029}' || c == '\U{202F}' || c == '\U{205F}'
    || c == '\U{3000}' || c == '\U{FEFF}'
  }

  /** The class `[^\s@]`. */
  predicate Plain(c: char) {
    !IsSpace(c) && c != '@'
  }

  /** The regular expression read as a language: the string is `A@B.C` with `A`, `B`, `C`
      non-empty runs of `[^\s@]`; `at` is the `@` and `dot` the literal `.`. */
  ghost predicate MatchesEmailRegex(s: string) {
    exists at, dot :: 0 < at && at + 1 < dot < |s| - 1 && s[at] == '@' && s[dot] == '.'
      && forall k :: 0 <= k < |s| && k != at ==> Plain(s[k])
  }

  /** The dot after the `@` that the pattern's `\.` needs: neither first nor last. */
  predicate HasInnerDot(t: string) {
    exists d | 0 < d < |t| - 1 :: t[d] == '.'
  }

  /** The pattern checked directly: no whitespace anywhere, exactly one `@` with something before
      it, and a `.` after it that is neither the first nor the last character there. */
  predicate IsValidEmail(s: string) {
    && (forall k | 0 <= k < |s| :: !IsSpace(s[k]))
    && match IndexOf(s, '@')
       case None => false
       case Some(at) => at > 0 && '@' !in s[at + 1..] && HasInnerDot(s[at + 1..])
  }

  /** The direct check accepts exactly the strings the regular expression matches. */
  lemma IsValidEmailIffRegex(s: string)
    ensures IsValidEmail(s) <==> MatchesEmailRegex(s)
  {
    if IsValidEmail(s) {
      var at := IndexOf(s, '@').value;
      var t := s[at + 1..];
      var d :| 0 < d < |t| - 1 && t[d] == '.';
      var dot := at + 1 + d;
      assert s[dot] == '.';
      forall k | 0 <= k < |s| && k != at ensures Plain(s[k]) {
        if k < at {
          assert s[k] in s[..at];
        } else {
          assert s[k] == t[k - at - 1];
        }
      }
      assert MatchesEmailRegex(s);
    }
    if MatchesEmailRegex(s) {
      var at, dot :| 0 < at && at + 1 < dot < |s| - 1 && s[at] == '@' && s[dot] == '.'
        && forall k :: 0 <= k < |s| && k != at ==> Plain(s[k]);
      assert !IsSpace(s[at]);
      var r := IndexOf(s, '@');
      assert r.Some?;
      assert r.value == at;
      var t := s[at + 1..];
      assert '@' !in t by {
        forall j | 0 <= j < |t| ensures t[j] != '@' {
          assert t[j] == s[at + 1 + j];
        }
      }
      assert t[dot - at - 1] == '.';
      assert HasInnerDot(t);
    }
  }

  lemma ExampleAccepted()
    ensures IsValidEmail("me@mail.io")
  {
    var s := "me@mail.io";
    ExampleAt();
    ExampleDomain();
    ExampleNoSpace();
    assert s[3..] == "mail.io";
  }

  lemma ExampleAt()
    ensures IndexOf("me@mail.io", '@') == Some(2)
  {
    var s := "me@mail.io";
    assert s[0] == 'm' && s[1] == 'e' && s[2] == '@';
  }

  lemma ExampleDomain()
    ensures '@' !in "mail.io" && HasInnerDot("mail.io")
  {
    var t := "mail.io";
    assert t[4] == '.';
  }

  lemma ExampleNoSpace()
    ensures forall k | 0 <= k < |"me@mail.io"| :: !IsSpace("me@mail.io"[k])
  {
    var s := "me@mail.io";
    forall k | 0 <= k < |s| ensures !IsSpace(s[k]) {
      assert s[k] in "me@mail.io";
    }
  }

  lemma ExampleRejected()
    ensures !IsValidEmail("me@mail.") && !IsValidEmail("@mail.io") && !IsValidEmail("a@b@c.io")
  {
    ExampleNoTopLevel();
    ExampleNoLocalPart();
    ExampleTwoAts();
  }

  lemma ExampleNoTopLevel()
    ensures !IsValidEmail("me@mail.")
  {
    var s := "me@mail.";
    assert IndexOf(s, '@') == Some(2) by {
      assert s[0] == 'm' && s[1] == 'e' && s[2] == '@';
    }
    assert s[3..] == "mail.";
    ExampleNoInnerDot();
  }

  lemma ExampleNoInnerDot()
    ensures !HasInnerDot("mail.")
  {
    var t := "mail.";
    assert t[1] == 'a' && t[2] == 'i' && t[3] == 'l';
  }

  lemma ExampleNoLocalPart()
    ensures !IsValidEmail("@mail.io")
  {
    assert IndexOf("@mail.io", '@') == Some(0);
  }

  lemma ExampleTwoAts()
    ensures !IsValidEmail("a@b@c.io")
  {
    var s := "a@b@c.io";
    assert IndexOf(s, '@') == Some(1) by {
      assert s[0] == 'a' && s[1] == '@';
    }
    assert s[2..][1] == '@';
  }
}
