/**
 * The contact form's submit handler (contacto.js): the field trimming, the
 * e-mail pattern, the ordered guards, the feedback writes, the form reset and
 * the deferred hide of the feedback element.
 */
module Contact {

  // ---------------------------------------------------------------------------
  // Whitespace, as String.prototype.trim and the regular-expression class \s
  // both define it: the WhiteSpace and LineTerminator productions of ECMA-262.
  // ---------------------------------------------------------------------------

  /** WhiteSpace (TAB, VT, FF, ZWNBSP and every Zs code point) and LineTerminator (LF, CR, LS, PS). */
  const WhiteSpaceChars: set<char> := {
    '\U{9}', '\U{B}', '\U{C}', '\U{FEFF}',
    // category Zs
    '\U{20}', '\U{A0}', '\U{1680}', '\U{2000}', '\U{2001}', '\U{2002}', '\U{2003}', '\U{2004}',
    '\U{2005}', '\U{2006}', '\U{2007}', '\U{2008}', '\U{2009}', '\U{200A}', '\U{202F}', '\U{205F}',
    '\U{3000}',
    // LineTerminator
    '\U{A}', '\U{D}', '\U{2028}', '\U{2029}'
  }

  /** A character that trim removes and that the class \s matches. */
  predicate IsWhiteSpace(c: char)
  {
    c in WhiteSpaceChars
  }

  predicate AllWhiteSpace(s: string)
  {
    forall k :: 0 <= k < |s| ==> IsWhiteSpace(s[k])
  }

  predicate NoWhiteSpace(s: string)
  {
    forall k :: 0 <= k < |s| ==> !IsWhiteSpace(s[k])
  }

  // ---------------------------------------------------------------------------
  // String.prototype.trim
  // ---------------------------------------------------------------------------

  /** Drops the leading whitespace: the first step of String.prototype.trim. */
  function TrimStart(s: string): string
    decreases |s|
  {
    if |s| > 0 && IsWhiteSpace(s[0]) then TrimStart(s[1..]) else s
  }

  /** Drops the trailing whitespace: the second step of String.prototype.trim. */
  function TrimEnd(s: string): string
    decreases |s|
  {
    if |s| > 0 && IsWhiteSpace(s[|s| - 1]) then TrimEnd(s[..|s| - 1]) else s
  }

  /** TrimStart(s) is the suffix of `s` after a whitespace-only prefix, and does not start with whitespace. */
  lemma {:induction false} TrimStartSpec(s: string)
    ensures |TrimStart(s)| <= |s| && TrimStart(s) == s[|s| - |TrimStart(s)|..]
    ensures AllWhiteSpace(s[..|s| - |TrimStart(s)|])
    ensures TrimStart(s) == [] || !IsWhiteSpace(TrimStart(s)[0])
    decreases |s|
  {
    if |s| > 0 && IsWhiteSpace(s[0]) {
      TrimStartSpec(s[1..]);
      var n := |s| - |TrimStart(s)|;
      assert s[1..][..n - 1] == s[1..n];
      assert forall k :: 0 < k < n ==> s[..n][k] == s[1..][..n - 1][k - 1];
    } else {
      assert s[..0] == [];
    }
  }

  /** TrimEnd(s) is the prefix of `s` before a whitespace-only suffix, and does not end with whitespace. */
  lemma {:induction false} TrimEndSpec(s: string)
    ensures |TrimEnd(s)| <= |s| && TrimEnd(s) == s[..|TrimEnd(s)|]
    ensures AllWhiteSpace(s[|TrimEnd(s)|..])
    ensures TrimEnd(s) == [] || !IsWhiteSpace(TrimEnd(s)[|TrimEnd(s)| - 1])
    decreases |s|
  {
    if |s| > 0 && IsWhiteSpace(s[|s| - 1]) {
      var p := s[..|s| - 1];
      TrimEndSpec(p);
      var n := |TrimEnd(s)|;
      assert p[..n] == s[..n];
      assert s[n..] == p[n..] + [s[|s| - 1]];
    } else {
      assert s[|s|..] == [];
    }
  }

  /**
   * String.prototype.trim: `s` without its leading and trailing whitespace
   * (what that means is stated by TrimInfix, TrimEnds and TrimEmptyIffBlank).
   */
  function Trim(s: string): string
  {
    TrimEnd(TrimStart(s))
  }

  /**
   * Trim(s) is the infix of `s` starting at `lo` with whitespace only before
   * and after it.
   */
  lemma TrimInfix(s: string) returns (lo: nat)
    ensures lo + |Trim(s)| <= |s| && Trim(s) == s[lo..lo + |Trim(s)|]
    ensures AllWhiteSpace(s[..lo]) && AllWhiteSpace(s[lo + |Trim(s)|..])
  {
    var t := TrimStart(s);
    var r := TrimEnd(t);
    TrimStartSpec(s);
    TrimEndSpec(t);
    lo := |s| - |t|;
    assert t == s[lo..] && r == t[..|r|];
    assert r == s[lo..lo + |r|];
    assert s[lo + |r|..] == t[|r|..];
  }

  /** A non-empty Trim(s) starts and ends with a character that is not whitespace. */
  lemma TrimEnds(s: string)
    ensures Trim(s) != [] ==> !IsWhiteSpace(Trim(s)[0]) && !IsWhiteSpace(Trim(s)[|Trim(s)| - 1])
  {
    var t := TrimStart(s);
    TrimStartSpec(s);
    TrimEndSpec(t);
    if Trim(s) != [] {
      assert Trim(s)[0] == t[0];
    }
  }

  /** Trimming leaves nothing exactly when the string is whitespace only. */
  lemma TrimEmptyIffBlank(s: string)
    ensures Trim(s) == [] <==> AllWhiteSpace(s)
  {
    var t := TrimStart(s);
    TrimStartSpec(s);
    TrimEndSpec(t);
    var lo := |s| - |t|;
    if Trim(s) == [] {
      assert t == [];
      assert s[..lo] == s;
    } else {
      assert s[lo] == t[0] == Trim(s)[0];
    }
  }

  /** Trimming twice is trimming once. */
  lemma TrimIdempotent(s: string)
    ensures Trim(Trim(s)) == Trim(s)
  {
    TrimEnds(s);
    TrimOfTrimmed(Trim(s));
  }

  /** A string that neither starts nor ends with whitespace is its own trimming. */
  lemma TrimOfTrimmed(s: string)
    requires s != [] ==> !IsWhiteSpace(s[0]) && !IsWhiteSpace(s[|s| - 1])
    ensures Trim(s) == s
  {
    assert TrimStart(s) == s;
  }

  /** Surrounding spaces are dropped and nothing else. */
  lemma TrimPadded(core: string)
    requires core != [] && !IsWhiteSpace(core[0]) && !IsWhiteSpace(core[|core| - 1])
    ensures Trim(" " + core + " ") == core
  {
    var s := " " + core + " ";
    assert s[1..] == core + " ";
    assert TrimStart(s) == core + " " by { assert TrimStart(core + " ") == core + " "; }
    assert (core + " ")[..|core|] == core;
    assert TrimEnd(core + " ") == TrimEnd(core) == core;
  }

  // ---------------------------------------------------------------------------
  // The e-mail pattern /^[^\s@]+@[^\s@]+\.[^\s@]+$/
  // ---------------------------------------------------------------------------

  /** A character of the class [^\s@]. */
  predicate PlainChar(c: char)
  {
    !IsWhiteSpace(c) && c != '@'
  }

  /** Every character of `e` from index `lo` up to (not including) `hi` is in [^\s@]. */
  predicate PlainRange(e: string, lo: int, hi: int)
    requires 0 <= lo <= hi <= |e|
  {
    forall k :: lo <= k < hi ==> PlainChar(e[k])
  }

  /** Every character of `s` is in [^\s@]. */
  predicate AllPlain(s: string)
  {
    PlainRange(s, 0, |s|)
  }

  /**
   * The pattern read literally: a non-empty run of [^\s@], the '@' at index
   * `i`, a non-empty run of [^\s@], the '.' at index `j`, a non-empty run of
   * [^\s@], and nothing else (the pattern is anchored at both ends). A '.' is
   * itself in [^\s@], so the middle run may hold dots.
   */
  predicate EmailShapeOk(e: string)
  {
    exists i, j :: 0 < i < j < |e| && i + 1 < j && j + 1 < |e| && e[i] == '@' && e[j] == '.'
                   && PlainRange(e, 0, i) && PlainRange(e, i + 1, j) && PlainRange(e, j + 1, |e|)
  }

  /**
   * The shape stated as rules: no whitespace anywhere, exactly one '@', a
   * non-empty local part before it, and a domain (everything after the '@')
   * holding a '.' that is neither its first nor its last character.
   */
  ghost predicate ShapeByRules(e: string)
  {
    NoWhiteSpace(e)
    && exists i :: 0 <= i < |e| && e[i] == '@'
                   && (forall k :: 0 <= k < |e| && e[k] == '@' ==> k == i)
                   && 0 < i
                   && exists j :: i + 1 < j < |e| - 1 && e[j] == '.'
  }

  /** A string the pattern accepts satisfies the rules. */
  lemma PatternImpliesRules(e: string)
    requires EmailShapeOk(e)
    ensures ShapeByRules(e)
  {
    var i, j :| 0 < i < j < |e| && i + 1 < j && j + 1 < |e| && e[i] == '@' && e[j] == '.'
                && PlainRange(e, 0, i) && PlainRange(e, i + 1, j) && PlainRange(e, j + 1, |e|);
    forall k | 0 <= k < |e| ensures !IsWhiteSpace(e[k]) && (e[k] == '@' ==> k == i) {
      if k != i && k != j { assert PlainChar(e[k]); }
    }
  }

  /** A string that satisfies the rules is accepted by the pattern. */
  lemma RulesImplyPattern(e: string)
    requires ShapeByRules(e)
    ensures EmailShapeOk(e)
  {
    var i :| 0 < i < |e| && e[i] == '@' && (forall k :: 0 <= k < |e| && e[k] == '@' ==> k == i)
             && exists j :: i + 1 < j < |e| - 1 && e[j] == '.';
    var j :| i + 1 < j < |e| - 1 && e[j] == '.';
    assert PlainRange(e, 0, i) && PlainRange(e, i + 1, j) && PlainRange(e, j + 1, |e|);
  }

  /** The literal reading of the pattern and the rules accept the same strings. */
  lemma EmailShapeOkIffRules(e: string)
    ensures EmailShapeOk(e) <==> ShapeByRules(e)
  {
    if EmailShapeOk(e) { PatternImpliesRules(e); }
    if ShapeByRules(e) { RulesImplyPattern(e); }
  }

  /** A run of [^\s@] keeps its meaning inside a longer string. */
  lemma PlainRangeShift(s: string, e: string, offset: nat)
    requires offset + |s| <= |e| && e[offset..offset + |s|] == s
    ensures AllPlain(s) <==> PlainRange(e, offset, offset + |s|)
  {
    assert forall k :: 0 <= k < |s| ==> s[k] == e[offset + k];
    if AllPlain(s) {
      forall k | offset <= k < offset + |s| ensures PlainChar(e[k]) { assert e[k] == s[k - offset]; }
    }
  }

  /** Every local + "@" + domain + "." + top with three non-empty runs of [^\s@] matches. */
  lemma EmailOfParts(local: string, domain: string, top: string)
    requires local != [] && domain != [] && top != []
    requires AllPlain(local) && AllPlain(domain) && AllPlain(top)
    ensures EmailShapeOk(local + "@" + domain + "." + top)
  {
    var e := local + "@" + domain + "." + top;
    var i, j := |local|, |local| + 1 + |domain|;
    assert e[..i] == local && e[i + 1..j] == domain && e[j + 1..] == top;
    PlainRangeShift(local, e, 0);
    PlainRangeShift(domain, e, i + 1);
    PlainRangeShift(top, e, j + 1);
    assert e[i] == '@' && e[j] == '.';
  }

  /**
   * Every matching string splits as local + "@" + domain + "." + top with three
   * non-empty runs of [^\s@].
   */
  lemma SplitEmail(e: string) returns (local: string, domain: string, top: string)
    requires EmailShapeOk(e)
    ensures e == local + "@" + domain + "." + top
    ensures local != [] && domain != [] && top != []
    ensures AllPlain(local) && AllPlain(domain) && AllPlain(top)
  {
    var i, j :| 0 < i < j < |e| && i + 1 < j && j + 1 < |e| && e[i] == '@' && e[j] == '.'
                && PlainRange(e, 0, i) && PlainRange(e, i + 1, j) && PlainRange(e, j + 1, |e|);
    local, domain, top := e[..i], e[i + 1..j], e[j + 1..];
    PlainRangeShift(local, e, 0);
    PlainRangeShift(domain, e, i + 1);
    PlainRangeShift(top, e, j + 1);
    SplitAround(e, i, j);
    assert [e[i]] == "@" && [e[j]] == ".";
  }

  /** Cutting a string at two positions and putting it back together gives the string. */
  lemma SplitAround(e: string, i: nat, j: nat)
    requires i < j < |e|
    ensures e == e[..i] + [e[i]] + e[i + 1..j] + [e[j]] + e[j + 1..]
  {
    assert e[..j] == e[..i] + [e[i]] + e[i + 1..j];
    assert e[j..] == [e[j]] + e[j + 1..];
    assert e == e[..j] + e[j..];
  }

  /** An accepted address: "a@b.c". */
  lemma EmailExampleShort()
    ensures EmailShapeOk("a@b.c")
  {
    var e := "a@b.c";
    assert e[1] == '@' && e[3] == '.' && PlainRange(e, 0, 1) && PlainRange(e, 2, 3) && PlainRange(e, 4, 5);
  }

  /** An accepted address: "ana@test.com". */
  lemma EmailExampleScenario()
    ensures EmailShapeOk("ana@test.com")
  {
    var e := "ana@test.com";
    assert e[3] == '@' && e[8] == '.';
    assert PlainRange(e, 0, 3) && PlainRange(e, 4, 8) && PlainRange(e, 9, 12);
  }

  /** "a@b" (no '.' after the '@') is refused. */
  lemma EmailExampleNoDot()
    ensures !EmailShapeOk("a@b")
  {
  }

  /** An inner space, a second '@' and an empty local part are each refused. */
  lemma EmailExamplesRefused()
    ensures !EmailShapeOk("ana @test.com")
    ensures !EmailShapeOk("a@@b.c")
    ensures !EmailShapeOk("@b.c")
  {
    EmailShapeOkIffRules("ana @test.com");
    assert IsWhiteSpace("ana @test.com"[3]);
    EmailShapeOkIffRules("a@@b.c");
    assert "a@@b.c"[1] == '@' && "a@@b.c"[2] == '@';
    EmailShapeOkIffRules("@b.c");
  }

  // ---------------------------------------------------------------------------
  // The guards
  // ---------------------------------------------------------------------------

  datatype Outcome = MissingFields | InvalidEmail | ConsentRequired | Accepted

  // The four texts, after their common leading space.
  function MissingFieldsText(): string { "Por favor completa todos los campos obligatorios." }
  function InvalidEmailText(): string { "El formato de email no es válido." }
  function ConsentRequiredText(): string { "Debes aceptar la política de privacidad." }
  function AcceptedText(): string { "¡Formulario enviado correctamente! Te contactaremos pronto." }

  /** The text written to the feedback element for each outcome (each with a leading space). */
  function Message(o: Outcome): (m: string)
    ensures |m| > 1 && m[0] == ' '
  {
    " " + match o
      case MissingFields => MissingFieldsText()
      case InvalidEmail => InvalidEmailText()
      case ConsentRequired => ConsentRequiredText()
      case Accepted => AcceptedText()
  }

  /** The class written to the feedback element: 'success' only when the form is accepted. */
  function StyleClass(o: Outcome): (c: string)
    ensures c == "success" <==> o == Accepted
    ensures c == "error" <==> o != Accepted
  {
    if o == Accepted then "success" else "error"
  }

  /**
   * The outcome of a submission of the raw field values: the guards run in the
   * order completeness, e-mail shape, consent, and the first that fails decides.
   */
  function Validate(name: string, email: string, inquiry: string, consent: bool): (o: Outcome)
    ensures o == MissingFields <==> Trim(name) == [] || Trim(email) == [] || Trim(inquiry) == []
    ensures o == InvalidEmail <==>
      Trim(name) != [] && Trim(email) != [] && Trim(inquiry) != [] && !EmailShapeOk(Trim(email))
    ensures o == ConsentRequired <==>
      Trim(name) != [] && Trim(inquiry) != [] && EmailShapeOk(Trim(email)) && !consent
    ensures o == Accepted <==>
      Trim(name) != [] && Trim(inquiry) != [] && EmailShapeOk(Trim(email)) && consent
  {
    var n, e, q := Trim(name), Trim(email), Trim(inquiry);
    if n == [] || e == [] || q == [] then MissingFields
    else if !EmailShapeOk(e) then InvalidEmail
    else if !consent then ConsentRequired
    else Accepted
  }

  /**
   * The guards restated on the raw values: a field is missing when it is
   * whitespace only, whatever the other fields and the consent are.
   */
  lemma ValidateByRules(name: string, email: string, inquiry: string, consent: bool)
    ensures var o := Validate(name, email, inquiry, consent);
      && (o == MissingFields <==> AllWhiteSpace(name) || AllWhiteSpace(email) || AllWhiteSpace(inquiry))
      && (o == InvalidEmail <==>
           !AllWhiteSpace(name) && !AllWhiteSpace(email) && !AllWhiteSpace(inquiry) && !EmailShapeOk(Trim(email)))
      && (o == ConsentRequired <==>
           !AllWhiteSpace(name) && !AllWhiteSpace(inquiry) && EmailShapeOk(Trim(email)) && !consent)
      && (o == Accepted <==>
           !AllWhiteSpace(name) && !AllWhiteSpace(inquiry) && EmailShapeOk(Trim(email)) && consent)
  {
    TrimEmptyIffBlank(name);
    TrimEmptyIffBlank(email);
    TrimEmptyIffBlank(inquiry);
  }

  /** A blank (empty or whitespace-only) field is reported as missing, with class 'error'. */
  lemma BlankFieldIsMissing(name: string, email: string, inquiry: string, consent: bool)
    requires AllWhiteSpace(name) || AllWhiteSpace(email) || AllWhiteSpace(inquiry)
    ensures Validate(name, email, inquiry, consent) == MissingFields
    ensures StyleClass(Validate(name, email, inquiry, consent)) == "error"
  {
    ValidateByRules(name, email, inquiry, consent);
  }

  /** A badly shaped e-mail is reported before a missing consent. */
  lemma EmailCheckedBeforeConsent(name: string, email: string, inquiry: string)
    requires !AllWhiteSpace(name) && !AllWhiteSpace(email) && !AllWhiteSpace(inquiry)
    requires !EmailShapeOk(Trim(email))
    ensures Validate(name, email, inquiry, false) == InvalidEmail
    ensures Validate(name, email, inquiry, true) == InvalidEmail
  {
    ValidateByRules(name, email, inquiry, false);
    ValidateByRules(name, email, inquiry, true);
  }

  /** With complete fields and a well-shaped e-mail the consent alone decides. */
  lemma ConsentDecidesLast(name: string, email: string, inquiry: string)
    requires !AllWhiteSpace(name) && !AllWhiteSpace(inquiry) && EmailShapeOk(Trim(email))
    ensures Validate(name, email, inquiry, false) == ConsentRequired
    ensures Validate(name, email, inquiry, true) == Accepted
  {
    ValidateByRules(name, email, inquiry, false);
    ValidateByRules(name, email, inquiry, true);
  }

  /** An accepted submission: Ana, ana@test.com, Hola, consent given. */
  lemma ScenarioAccepted()
    ensures Validate("Ana", "ana@test.com", "Hola", true) == Accepted
    ensures StyleClass(Validate("Ana", "ana@test.com", "Hola", true)) == "success"
  {
    EmailExampleScenario();
    TrimOfTrimmed("Ana");
    TrimOfTrimmed("Hola");
    TrimOfTrimmed("ana@test.com");
  }

  /** A submission with the name left empty is refused as incomplete, with class 'error'. */
  lemma ScenarioMissingName()
    ensures Validate("", "ana@test.com", "Hola", true) == MissingFields
    ensures StyleClass(Validate("", "ana@test.com", "Hola", true)) == "error"
  {
    BlankFieldIsMissing("", "ana@test.com", "Hola", true);
  }

  /** A padded but well-shaped e-mail without consent is refused for the consent. */
  lemma ScenarioPaddedNoConsent()
    ensures Validate("Ana", " " + "a@b.c" + " ", "Hola", false) == ConsentRequired
  {
    EmailExampleShort();
    TrimPadded("a@b.c");
    TrimOfTrimmed("Ana");
    TrimOfTrimmed("Hola");
  }

  /** "a@b" without consent is refused for its shape, not for the consent. */
  lemma ScenarioBadShapeNoConsent()
    ensures Validate("Ana", "a@b", "Hola", false) == InvalidEmail
  {
    EmailExampleNoDot();
    TrimOfTrimmed("Ana");
    TrimOfTrimmed("Hola");
    TrimOfTrimmed("a@b");
  }

  // ---------------------------------------------------------------------------
  // The feedback element and the form
  // ---------------------------------------------------------------------------

  /** The inline display style of the feedback element: not written, or 'none'. */
  datatype Display = Unset | Hidden

  /** The feedback element `respuesta`, with the hide timers that are scheduled and not yet fired. */
  class Feedback {
    var text: string
    var styleClass: string
    var display: Display
    var pendingHides: nat

    constructor ()
      ensures text == "" && styleClass == "" && display == Unset && pendingHides == 0
    {
      text, styleClass, display, pendingHides := "", "", Unset, 0;
    }

    /** The 5000 ms timer callback: it hides the element and touches nothing else. */
    method HideTimerFires()
      requires pendingHides > 0
      modifies this
      ensures display == Hidden
      ensures pendingHides == old(pendingHides) - 1
      ensures text == old(text) && styleClass == old(styleClass)
    {
      display := Hidden;
      pendingHides := pendingHides - 1;
    }
  }

  /** The form `formContacto`: its three text fields and the consent checkbox, as the user left them. */
  class ContactForm {
    var name: string
    var email: string
    var inquiry: string
    var consent: bool

    constructor (name: string, email: string, inquiry: string, consent: bool)
      ensures this.name == name && this.email == email
      ensures this.inquiry == inquiry && this.consent == consent
    {
      this.name, this.email, this.inquiry, this.consent := name, email, inquiry, consent;
    }

    /**
     * The submit handler. It writes the outcome's message and class to the
     * feedback element; only an accepted submission resets the form (to empty
     * fields and an unchecked box) and schedules one hide timer. The display
     * style is never written here, so a hidden element stays hidden.
     */
    method Submit(feedback: Feedback) returns (o: Outcome)
      modifies this, feedback
      ensures o == Validate(old(name), old(email), old(inquiry), old(consent))
      ensures feedback.text == Message(o) && feedback.styleClass == StyleClass(o)
      ensures feedback.display == old(feedback.display)
      ensures o == Accepted ==>
        name == "" && email == "" && inquiry == "" && !consent
        && feedback.pendingHides == old(feedback.pendingHides) + 1
      ensures o != Accepted ==>
        name == old(name) && email == old(email) && inquiry == old(inquiry) && consent == old(consent)
        && feedback.pendingHides == old(feedback.pendingHides)
    {
      o := Validate(name, email, inquiry, consent);
      feedback.text := Message(o);
      feedback.styleClass := StyleClass(o);
      if o == Accepted {
        name, email, inquiry, consent := "", "", "", false;
        feedback.pendingHides := feedback.pendingHides + 1;
      }
    }
  }

  /**
   * Once a hide timer has fired the element stays hidden: a later submission,
   * accepted or not, writes a new message that is not shown.
   */
  method HiddenStaysHidden(form: ContactForm, feedback: Feedback)
    requires feedback.pendingHides > 0
    modifies form, feedback
    ensures feedback.display == Hidden
  {
    feedback.HideTimerFires();
    var o := form.Submit(feedback);
    assert feedback.display == Hidden && feedback.text == Message(o);
  }
}
