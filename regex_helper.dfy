/** helpers/regex.js: the two anchored regular expressions behind `validPassword` and
    `validEmail`.

    Each is given twice: as a recognizer that decides the string the way the expression is
    built (split at separators, test each piece), and, for the address, as the grammar
    the expression denotes (there EXIST pieces that concatenate to the string). The lemmas
    prove the two agree on every string. */
module RegexHelper {
  import opened Wrappers
  import opened Text

  // ---------------------------------------------------------------------------
  // Password: /^([a-zA-Z0-9@*#!%$_-]{8,30})$/

  /** The character class `[a-zA-Z0-9@*#!%$_-]`. */
  predicate IsPasswordChar(c: char)
  {
    IsAsciiLetter(c) || IsAsciiDigit(c) ||
    c == '@' || c == '*' || c == '#' || c == '!' || c == '%' || c == '$' || c == '_' || c == '-'
  }

  /** The anchored bounded repetition `^[a-zA-Z0-9@*#!%$_-]{min,max}$`, matched one
      character at a time. */
  predicate MatchesRepetition(s: string, min: nat, max: nat)
    decreases |s|
  {
    if |s| == 0 then min == 0
    else max > 0 && IsPasswordChar(s[0]) && MatchesRepetition(s[1..], if min > 0 then min - 1 else 0, max - 1)
  }

  /** `validPassword(password)`. */
  predicate ValidPassword(password: string)
  {
    MatchesRepetition(password, 8, 30)
  }

  /** The repetition matches exactly the strings of allowed characters whose length is within the bounds. */
  lemma {:induction false} RepetitionExactly(s: string, min: nat, max: nat)
    ensures MatchesRepetition(s, min, max) <==>
            min <= |s| <= max && forall i :: 0 <= i < |s| ==> IsPasswordChar(s[i])
    decreases |s|
  {
    if |s| > 0 && max > 0 {
      RepetitionExactly(s[1..], if min > 0 then min - 1 else 0, max - 1);
      assert forall i :: 1 <= i < |s| ==> s[i] == s[1..][i - 1];
    }
  }

  /** `validPassword` holds exactly for 8 to 30 characters drawn from `[a-zA-Z0-9@*#!%$_-]`. */
  lemma ValidPasswordExactly(password: string)
    ensures ValidPassword(password) <==>
            8 <= |password| <= 30 && forall i :: 0 <= i < |password| ==> IsPasswordChar(password[i])
  {
    RepetitionExactly(password, 8, 30);
  }

  /** The user tests' short password is refused. */
  lemma ShortPasswordRefused()
    ensures !ValidPassword("short")
  {
    ValidPasswordExactly("short");
  }

  /** The user tests' password of letters is accepted. */
  lemma LetterPasswordAccepted()
    ensures ValidPassword("myValidPassword")
  {
    var p := "myValidPassword";
    assert forall i :: 0 <= i < |p| ==> IsAsciiLetter(p[i]);
    ValidPasswordExactly(p);
  }

  // ---------------------------------------------------------------------------
  // Address: /^(([^<>()\[\]\\.,;:\s@"]+(\.[^<>()\[\]\\.,;:\s@"]+)*)|(".+"))@
  //           ((\[[0-9]{1,3}\.[0-9]{1,3}\.[0-9]{1,3}\.[0-9]{1,3}])|(([a-zA-Z\-0-9]+\.)+[a-zA-Z]{2,}))$/

  /** The class `[^<>()\[\]\\.,;:\s@"]` of the local part's atoms. */
  predicate IsAtomChar(c: char)
  {
    c != '<' && c != '>' && c != '(' && c != ')' && c != '[' && c != ']' && c != '\\' &&
    c != '.' && c != ',' && c != ';' && c != ':' && c != '@' && c != '"' && !IsWhitespace(c)
  }

  /** The class `[a-zA-Z\-0-9]` of host-name labels. */
  predicate IsLabelChar(c: char)
  {
    IsAsciiLetter(c) || IsAsciiDigit(c) || c == '-'
  }

  /** `[^<>()\[\]\\.,;:\s@"]+` */
  predicate IsAtom(w: string)
  {
    |w| >= 1 && forall i :: 0 <= i < |w| ==> IsAtomChar(w[i])
  }

  /** `[a-zA-Z\-0-9]+` */
  predicate IsLabel(w: string)
  {
    |w| >= 1 && forall i :: 0 <= i < |w| ==> IsLabelChar(w[i])
  }

  /** `[a-zA-Z]{2,}` */
  predicate IsTopLevel(w: string)
  {
    |w| >= 2 && forall i :: 0 <= i < |w| ==> IsAsciiLetter(w[i])
  }

  /** `[0-9]{1,3}` */
  predicate IsOctet(w: string)
  {
    1 <= |w| <= 3 && forall i :: 0 <= i < |w| ==> IsAsciiDigit(w[i])
  }

  /** `".+"`: a quote, at least one character other than a line terminator (quotes and `@`
      included), and a closing quote. */
  predicate IsQuoted(s: string)
  {
    |s| >= 3 && s[0] == '"' && s[|s| - 1] == '"' &&
    forall i :: 1 <= i < |s| - 1 ==> !IsLineTerminator(s[i])
  }

  // --- recognizer

  /** The position of the last occurrence of `c` in `s`. */
  function LastIndexOf(s: string, c: char): (r: Option<nat>)
    ensures r.None? <==> c !in s
    ensures r.Some? ==> r.value < |s| && s[r.value] == c && c !in s[r.value + 1..]
    decreases |s|
  {
    if |s| == 0 then None
    else if s[|s| - 1] == c then Some(|s| - 1)
    else
      var init := s[..|s| - 1];
      var r := LastIndexOf(init, c);
      assert s == init + [s[|s| - 1]];
      if r.Some? then
        assert s[r.value] == init[r.value];
        assert s[r.value + 1..] == init[r.value + 1..] + [s[|s| - 1]];
        r
      else r
  }

  /** Dot-separated atoms: every piece between dots is an atom. */
  predicate IsDotAtoms(s: string)
  {
    var atoms := Split(s, '.');
    forall i :: 0 <= i < |atoms| ==> IsAtom(atoms[i])
  }

  predicate IsLocalPart(s: string)
  {
    IsDotAtoms(s) || IsQuoted(s)
  }

  /** `[d.d.d.d]`: brackets around exactly four dot-separated octets. */
  predicate IsAddressLiteral(s: string)
  {
    |s| >= 2 && s[0] == '[' && s[|s| - 1] == ']' &&
    var octets := Split(s[1..|s| - 1], '.');
    |octets| == 4 && forall i :: 0 <= i < 4 ==> IsOctet(octets[i])
  }

  /** Host name: at least two dot-separated pieces, all labels but the last, which is a
      top-level name of two or more letters. */
  predicate IsHostName(s: string)
  {
    var pieces := Split(s, '.');
    |pieces| >= 2 &&
    (forall i :: 0 <= i < |pieces| - 1 ==> IsLabel(pieces[i])) &&
    IsTopLevel(pieces[|pieces| - 1])
  }

  predicate IsDomain(s: string)
  {
    IsAddressLiteral(s) || IsHostName(s)
  }

  /** `validEmail(email)`: the domain cannot contain `@`, so the address splits at its last `@`. */
  predicate ValidEmail(email: string)
  {
    match LastIndexOf(email, '@')
    case None => false
    case Some(at) => IsLocalPart(email[..at]) && IsDomain(email[at + 1..])
  }

  // --- the grammar the expression denotes

  /** `atom(\.atom)*` */
  ghost predicate DotAtomForm(s: string)
  {
    exists atoms: seq<string> ::
      |atoms| >= 1 && (forall i :: 0 <= i < |atoms| ==> IsAtom(atoms[i])) && Join(atoms, '.') == s
  }

  /** `\[o\.o\.o\.o]`: four octets joined by dots, in brackets. */
  ghost predicate AddressLiteralForm(s: string)
  {
    exists a: string, b: string, c: string, d: string ::
      IsOctet(a) && IsOctet(b) && IsOctet(c) && IsOctet(d) &&
      s == "[" + Join([a, b, c, d], '.') + "]"
  }

  /** `(label\.)+tld`: one or more labels, each followed by a dot, then the top-level name. */
  ghost predicate HostNameForm(s: string)
  {
    exists labels: seq<string>, tld: string ::
      |labels| >= 1 && (forall i :: 0 <= i < |labels| ==> IsLabel(labels[i])) &&
      IsTopLevel(tld) && s == Join(labels + [tld], '.')
  }

  /** The `@` at `at` separates a local part from a domain. */
  ghost predicate EmailFormAt(s: string, at: int)
  {
    0 <= at < |s| && s[at] == '@' &&
    (DotAtomForm(s[..at]) || IsQuoted(s[..at])) &&
    (AddressLiteralForm(s[at + 1..]) || HostNameForm(s[at + 1..]))
  }

  /** `^(local)@(domain)$` for some `@` of the string. */
  ghost predicate EmailForm(s: string)
  {
    exists at :: EmailFormAt(s, at)
  }

  // --- agreement

  /** A character that is neither the separator nor in any piece is not in the join. */
  lemma {:induction false} NotInJoin(parts: seq<string>, sep: char, c: char)
    requires c != sep
    requires forall i :: 0 <= i < |parts| ==> c !in parts[i]
    ensures c !in Join(parts, sep)
    decreases |parts|
  {
    if |parts| > 1 {
      NotInJoin(parts[1..], sep, c);
    }
  }

  lemma DotAtomsAgree(s: string)
    ensures IsDotAtoms(s) <==> DotAtomForm(s)
  {
    if IsDotAtoms(s) {
      JoinSplit(s, '.');
    }
    if DotAtomForm(s) {
      var atoms :| |atoms| >= 1 && (forall i :: 0 <= i < |atoms| ==> IsAtom(atoms[i])) && Join(atoms, '.') == s;
      SplitJoin(atoms, '.');
    }
  }

  lemma HostNameHasForm(s: string)
    requires IsHostName(s)
    ensures HostNameForm(s)
  {
    var pieces := Split(s, '.');
    JoinSplit(s, '.');
    var labels, tld := pieces[..|pieces| - 1], pieces[|pieces| - 1];
    assert labels + [tld] == pieces;
    assert forall i :: 0 <= i < |labels| ==> IsLabel(labels[i]) by {
      forall i | 0 <= i < |labels| ensures IsLabel(labels[i]) {
        assert labels[i] == pieces[i];
      }
    }
  }

  lemma HostNameFormRecognized(s: string)
    requires HostNameForm(s)
    ensures IsHostName(s)
  {
    var labels, tld :| |labels| >= 1 && (forall i :: 0 <= i < |labels| ==> IsLabel(labels[i])) &&
      IsTopLevel(tld) && s == Join(labels + [tld], '.');
    var parts := labels + [tld];
    forall i | 0 <= i < |parts| ensures '.' !in parts[i] {
      if i < |labels| {
        assert parts[i] == labels[i] && IsLabel(labels[i]);
      } else {
        assert parts[i] == tld;
      }
    }
    SplitJoin(parts, '.');
    forall i | 0 <= i < |parts| - 1 ensures IsLabel(parts[i]) {
      assert parts[i] == labels[i];
    }
  }

  lemma HostNameAgrees(s: string)
    ensures IsHostName(s) <==> HostNameForm(s)
  {
    if IsHostName(s) { HostNameHasForm(s); }
    if HostNameForm(s) { HostNameFormRecognized(s); }
  }

  /** A bracketed string is its brackets around its middle. */
  lemma Bracketed(s: string)
    requires |s| >= 2 && s[0] == '[' && s[|s| - 1] == ']'
    ensures s == "[" + s[1..|s| - 1] + "]"
  {
  }

  lemma AddressLiteralHasForm(s: string)
    requires IsAddressLiteral(s)
    ensures AddressLiteralForm(s)
  {
    var middle := s[1..|s| - 1];
    var octets := Split(middle, '.');
    JoinSplit(middle, '.');
    Bracketed(s);
    var a, b, c, d := octets[0], octets[1], octets[2], octets[3];
    assert octets == [a, b, c, d];
    assert IsOctet(a) && IsOctet(b) && IsOctet(c) && IsOctet(d);
    assert s == "[" + Join([a, b, c, d], '.') + "]";
  }

  lemma AddressLiteralFormRecognized(s: string)
    requires AddressLiteralForm(s)
    ensures IsAddressLiteral(s)
  {
    var a, b, c, d :| IsOctet(a) && IsOctet(b) && IsOctet(c) && IsOctet(d) &&
      s == "[" + Join([a, b, c, d], '.') + "]";
    var parts := [a, b, c, d];
    var middle := Join(parts, '.');
    assert s[1..|s| - 1] == middle;
    forall i | 0 <= i < 4 ensures '.' !in parts[i] {
      assert IsOctet(parts[i]);
    }
    SplitJoin(parts, '.');
    assert Split(middle, '.') == parts;
    forall i | 0 <= i < 4 ensures IsOctet(parts[i]) {
    }
  }

  lemma AddressLiteralAgrees(s: string)
    ensures IsAddressLiteral(s) <==> AddressLiteralForm(s)
  {
    if IsAddressLiteral(s) { AddressLiteralHasForm(s); }
    if AddressLiteralForm(s) { AddressLiteralFormRecognized(s); }
  }

  /** Neither domain form contains `@`. */
  lemma DomainHasNoAt(s: string)
    requires IsDomain(s)
    ensures '@' !in s
  {
    if IsHostName(s) {
      var pieces := Split(s, '.');
      JoinSplit(s, '.');
      forall i | 0 <= i < |pieces| ensures '@' !in pieces[i] {
        if i < |pieces| - 1 { assert IsLabel(pieces[i]); } else { assert IsTopLevel(pieces[i]); }
      }
      NotInJoin(pieces, '.', '@');
    } else {
      var middle := s[1..|s| - 1];
      var octets := Split(middle, '.');
      JoinSplit(middle, '.');
      forall i | 0 <= i < |octets| ensures '@' !in octets[i] {
        assert IsOctet(octets[i]);
      }
      NotInJoin(octets, '.', '@');
      assert s == "[" + middle + "]";
    }
  }

  /** If `c` occurs at `i` and not after it, `i` is its last occurrence. */
  lemma LastIndexOfUnique(s: string, c: char, i: nat)
    requires i < |s| && s[i] == c && c !in s[i + 1..]
    ensures LastIndexOf(s, c) == Some(i)
  {
    assert c in s by { assert s[i] == c; }
  }

  lemma LocalPartHasForm(local: string)
    requires IsLocalPart(local)
    ensures DotAtomForm(local) || IsQuoted(local)
  {
    DotAtomsAgree(local);
  }

  lemma DomainHasForm(domain: string)
    requires IsDomain(domain)
    ensures AddressLiteralForm(domain) || HostNameForm(domain)
  {
    HostNameAgrees(domain);
    AddressLiteralAgrees(domain);
  }

  lemma ValidEmailIsGrammatical(email: string)
    requires ValidEmail(email)
    ensures EmailForm(email)
  {
    var at := LastIndexOf(email, '@').value;
    LocalPartHasForm(email[..at]);
    DomainHasForm(email[at + 1..]);
    assert EmailFormAt(email, at);
  }

  lemma LocalFormRecognized(local: string)
    requires DotAtomForm(local) || IsQuoted(local)
    ensures IsLocalPart(local)
  {
    DotAtomsAgree(local);
  }

  lemma DomainFormRecognized(domain: string)
    requires AddressLiteralForm(domain) || HostNameForm(domain)
    ensures IsDomain(domain) && '@' !in domain
  {
    HostNameAgrees(domain);
    AddressLiteralAgrees(domain);
    DomainHasNoAt(domain);
  }

  /** The grammar's `@` is the last one, and the recognizer accepts the two sides. */
  lemma EmailFormAtRecognized(email: string, at: int)
    requires EmailFormAt(email, at)
    ensures ValidEmail(email)
  {
    LocalFormRecognized(email[..at]);
    DomainFormRecognized(email[at + 1..]);
    LastIndexOfUnique(email, '@', at);
  }

  lemma GrammaticalEmailIsValid(email: string)
    requires EmailForm(email)
    ensures ValidEmail(email)
  {
    var at :| EmailFormAt(email, at);
    EmailFormAtRecognized(email, at);
  }

  /** `validEmail` accepts exactly the strings of the grammar. */
  lemma ValidEmailMatchesGrammar(email: string)
    ensures ValidEmail(email) <==> EmailForm(email)
  {
    if ValidEmail(email) { ValidEmailIsGrammatical(email); }
    if EmailForm(email) { GrammaticalEmailIsValid(email); }
  }

  /** A string without `@`, such as the user tests' "this_is_not_an_email", is refused. */
  lemma AddressWithoutAtRefused(s: string)
    requires '@' !in s
    ensures !ValidEmail(s)
  {
  }

  /** A word of lower-case letters is an atom, a label and, from two letters on, a top-level name. */
  lemma LowerCaseWord(w: string)
    requires |w| >= 1 && forall i :: 0 <= i < |w| ==> 'a' <= w[i] <= 'z'
    ensures IsAtom(w) && IsLabel(w) && '.' !in w && '@' !in w
    ensures |w| >= 2 ==> IsTopLevel(w)
  {
  }

  /** Every `local@host.tld` made of lower-case words, with a top-level name of two or more
      letters, is a valid address. */
  lemma LowerCaseAddressAccepted(local: string, host: string, tld: string)
    requires |local| >= 1 && forall i :: 0 <= i < |local| ==> 'a' <= local[i] <= 'z'
    requires |host| >= 1 && forall i :: 0 <= i < |host| ==> 'a' <= host[i] <= 'z'
    requires |tld| >= 2 && forall i :: 0 <= i < |tld| ==> 'a' <= tld[i] <= 'z'
    ensures ValidEmail(local + "@" + host + "." + tld)
  {
    LowerCaseWord(local);
    LowerCaseWord(host);
    LowerCaseWord(tld);
    var domain := host + ['.'] + tld;
    var email := local + "@" + domain;
    assert email == local + "@" + host + "." + tld;
    SplitWithoutSeparator(local, '.');
    assert IsLocalPart(local);
    SplitAfterPiece(host, '.', tld);
    SplitWithoutSeparator(tld, '.');
    assert Split(domain, '.') == [host, tld];
    assert IsDomain(domain);
    assert email[..|local|] == local && email[|local| + 1..] == domain;
    LastIndexOfUnique(email, '@', |local|);
  }

  /** The user tests' address "email@webmail.com", spelled as its three words, is accepted. */
  lemma SampleAddressAccepted()
    ensures ValidEmail("email" + "@" + "webmail" + "." + "com")
  {
    var local, host, tld := "email", "webmail", "com";
    assert forall i :: 0 <= i < |local| ==> 'a' <= local[i] <= 'z';
    assert forall i :: 0 <= i < |host| ==> 'a' <= host[i] <= 'z';
    assert forall i :: 0 <= i < |tld| ==> 'a' <= tld[i] <= 'z';
    LowerCaseAddressAccepted(local, host, tld);
  }
}
