/**
  Key validation for a Universe (validate_name). A key must be a String
  that is a Ruby method name: a letter or underscore, then letters, digits
  and underscores, optionally ending in `?` or `!`.
 */
module Names {
  import opened Wrappers

  /** A Hash key. The Universe accepts any object for reads, but only Strings may be written. */
  datatype Key = Name(s: string) | NonString(tag: int)

  /** Why validate_name rejected a key; each has its own message in the source. */
  datatype Reason = NotAString | NotAMethodName

  /** The rejection validate_name raises as a UniversalsError: the offending key and why. */
  datatype InvalidKey = InvalidKey(key: Key, reason: Reason)

  /** `[a-zA-Z_]` */
  predicate IsHead(c: char)
  {
    ('a' <= c <= 'z') || ('A' <= c <= 'Z') || c == '_'
  }

  /** `[a-zA-Z_0-9]` */
  predicate IsWord(c: char)
  {
    IsHead(c) || ('0' <= c <= '9')
  }

  /** `[?!]` */
  predicate IsSuffix(c: char)
  {
    c == '?' || c == '!'
  }

  /** `[A-Za-z_][A-Za-z_0-9]*`, matched against the whole of `w`. */
  predicate IsIdentifier(w: string)
  {
    |w| > 0 && IsHead(w[0]) && forall i :: 1 <= i < |w| ==> IsWord(w[i])
  }

  /**
    `[A-Za-z_][A-Za-z_0-9]*[?!]?`, matched against the whole of `s`:
    a head character first, word characters in between, and a last
    character that is a word character or a suffix.
   */
  predicate ValidName(s: string): (b: bool)
    ensures b <==> && |s| > 0 && IsHead(s[0])
                   && (forall i :: 1 <= i < |s| - 1 ==> IsWord(s[i]))
                   && (|s| > 1 ==> IsWord(s[|s| - 1]) || IsSuffix(s[|s| - 1]))
  {
    IsIdentifier(s) || (|s| > 1 && IsSuffix(s[|s| - 1]) && IsIdentifier(s[..|s| - 1]))
  }

  /** `[a-zA-Z_]+[a-zA-Z_0-9]*` read literally: a non-empty run of heads, then a run of word characters. */
  ghost predicate LiteralIdentifier(w: string)
  {
    exists n :: SplitsAt(w, n)
  }

  /** `w[..n]` matches `[a-zA-Z_]+` and `w[n..]` matches `[a-zA-Z_0-9]*`. */
  ghost predicate SplitsAt(w: string, n: int)
  {
    1 <= n <= |w| && (forall i :: 0 <= i < n ==> IsHead(w[i])) && (forall i :: n <= i < |w| ==> IsWord(w[i]))
  }

  /** The literal `[a-zA-Z_]+[a-zA-Z_0-9]*` accepts exactly the strings IsIdentifier accepts. */
  lemma LiteralIdentifierEquivalent(w: string)
    ensures LiteralIdentifier(w) <==> IsIdentifier(w)
  {
    if IsIdentifier(w) {
      assert SplitsAt(w, 1);
    }
    if LiteralIdentifier(w) {
      var n :| SplitsAt(w, n);
      assert IsHead(w[0]);
      forall i | 1 <= i < |w| ensures IsWord(w[i]) {
        if i < n { assert IsHead(w[i]); }
      }
    }
  }

  /**
    The pattern as the source writes it, `/^[a-zA-Z_]+[a-zA-Z_0-9]*[\?!]?$/`,
    with Ruby's semantics: `^` and `$` match at line boundaries, and
    `match` succeeds if any part of the string matches. Since the pattern
    matches no newline, that means: some line of `s` is a valid name.
   */
  ghost predicate MatchesAsWritten(s: string): (b: bool)
    ensures ValidName(s) ==> b
  {
    assert s[0..|s|] == s;
    exists i, j :: 0 <= i <= j <= |s| && (i == 0 || s[i - 1] == '\n') && (j == |s| || s[j] == '\n') && ValidName(s[i..j])
  }

  /** A valid name contains no newline. */
  lemma ValidNameHasNoNewline(s: string)
    requires ValidName(s)
    ensures forall i :: 0 <= i < |s| ==> s[i] != '\n'
  {
    if !IsIdentifier(s) {
      var w := s[..|s| - 1];
      assert forall i :: 0 <= i < |s| - 1 ==> s[i] == w[i];
    }
  }

  /**
    The whole-string rule is never more permissive than the source's
    regular expression, and on a string without a newline the two agree.
   */
  lemma ValidNameAgreesOnOneLine(s: string)
    ensures ValidName(s) ==> MatchesAsWritten(s)
    ensures (forall i :: 0 <= i < |s| ==> s[i] != '\n') ==> (MatchesAsWritten(s) <==> ValidName(s))
  {
    if ValidName(s) {
      assert s[0..|s|] == s;
    }
    if (forall i :: 0 <= i < |s| ==> s[i] != '\n') && MatchesAsWritten(s) {
      var i, j :| 0 <= i <= j <= |s| && (i == 0 || s[i - 1] == '\n') && (j == |s| || s[j] == '\n') && ValidName(s[i..j]);
      assert i == 0 && j == |s|;
      assert s[i..j] == s;
    }
  }

  /** The source accepts "1_method\nvalid" as a key although it is not a method name. */
  lemma MultiLineKeyPassesAsWritten()
    ensures MatchesAsWritten("1_method\nvalid")
    ensures !ValidName("1_method\nvalid")
  {
    var s := "1_method\nvalid";
    assert s[9..14] == "valid";
    assert IsIdentifier("valid");
    assert s[8] == '\n';
    assert !IsHead(s[0]);
    assert s[..|s| - 1][0] == '1';
  }

  /** A valid name never ends in `=`, so `p=` is never a valid name. */
  lemma ValidNameNotAssignment(p: string)
    ensures !ValidName(p + "=")
    ensures ValidName(p) ==> p[|p| - 1] != '='
  {
    var s := p + "=";
    assert s[|s| - 1] == '=';
    assert !IsWord('=') && !IsSuffix('=');
  }

  /** A key that may be written: a String holding a valid name. */
  predicate ValidKey(k: Key)
  {
    k.Name? && ValidName(k.s)
  }

  /** validate_name: only a String that is a valid name passes. */
  function ValidateName(k: Key): (r: Outcome<InvalidKey>)
    ensures r.Pass? <==> ValidKey(k)
    ensures r.Fail? ==> r.error.key == k
    ensures r.Fail? ==> (r.error.reason == NotAString <==> k.NonString?)
  {
    match k
    case NonString(_) => Fail(InvalidKey(k, NotAString))
    case Name(s) => if ValidName(s) then Pass else Fail(InvalidKey(k, NotAMethodName))
  }

  /** The keys the unit tests expect to be rejected are rejected, for the stated reason. */
  lemma TestSuiteRejections()
    ensures ValidateName(Name("1_method")) == Fail(InvalidKey(Name("1_method"), NotAMethodName))
    ensures ValidateName(Name("method-one")) == Fail(InvalidKey(Name("method-one"), NotAMethodName))
    ensures ValidateName(Name("method[]")) == Fail(InvalidKey(Name("method[]"), NotAMethodName))
    ensures ValidateName(Name("method=")) == Fail(InvalidKey(Name("method="), NotAMethodName))
    ensures ValidateName(NonString(123)) == Fail(InvalidKey(NonString(123), NotAString))
  {
    assert !IsWord("method-one"[6]);
    assert !IsIdentifier("method-on");
    assert !IsWord("method[]"[6]);
    assert !IsIdentifier("method[");
    ValidNameNotAssignment("method");
    assert "method" + "=" == "method=";
  }

  /**
    The keys the unit tests write ("One", "_Three", "deferred") are valid,
    and so are names ending in `?` or `!`, which the pattern allows.
   */
  lemma TestSuiteAcceptances()
    ensures ValidName("One") && ValidName("_Three") && ValidName("deferred")
    ensures ValidName("empty?") && ValidName("save!")
  {
    assert IsIdentifier("empty");
    assert "empty?"[..5] == "empty";
    assert IsIdentifier("save");
    assert "save!"[..4] == "save";
  }
}
