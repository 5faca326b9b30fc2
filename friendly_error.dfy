/** `_make_friendly_error` (backend/executor/sandbox.py): rewrites the raw text
    of a failure reported by the entry-point wrapper into a learner-oriented
    message for one of five failure categories, or a generic one. */
module FriendlyError {
  import opened Types
  import opened Strings

  /** The failure categories, in the order the translator tests them. */
  datatype Category =
    | ImportBlocked
    | SyntaxProblem
    | UnknownName
    | TypeMismatch
    | BadAttribute
    | Unclassified

  /** The category the translator applies: the first test that matches wins. */
  function Classify(raw: string): Category {
    if Contains(raw, "ImportError") || Contains(raw, "ModuleNotFoundError") then ImportBlocked
    else if Contains(raw, "SyntaxError") then SyntaxProblem
    else if Contains(raw, "NameError") then UnknownName
    else if Contains(raw, "TypeError") then TypeMismatch
    else if Contains(raw, "AttributeError") then BadAttribute
    else Unclassified
  }

  /** Text placed before the raw message. */
  function Prefix(c: Category): string {
    match c
    case ImportBlocked => "\U{1F6AB} Import blocked: "
    case SyntaxProblem => "\U{270F}\U{FE0F} Syntax error in your code: "
    case UnknownName => "\U{2753} Name not found: "
    case TypeMismatch => "\U{1F527} Type error: "
    case BadAttribute => "\U{1F50D} Attribute error: "
    case Unclassified => "\U{274C} Error: "
  }

  /** The hint given for a blocked import. */
  const AllowedImports := "Only `import cv2` and `import numpy as np` are allowed."

  /** Text placed after the raw message. */
  function Suffix(c: Category): string {
    match c
    case ImportBlocked => "\n" + AllowedImports
    case UnknownName => "\nDid you define this variable?"
    case BadAttribute => "\nCheck the OpenCV function name."
    case _ => ""
  }

  /** The learner-facing message; it always quotes the raw message in full. */
  function MakeFriendlyError(raw: string): (msg: string)
    ensures Contains(msg, raw)
    ensures |msg| > |raw|
  {
    var c := Classify(raw);
    ContainsInfix(Prefix(c), raw, Suffix(c));
    Prefix(c) + raw + Suffix(c)
  }

  /** The category a translated message was written for, read off its first
      character (each category's text begins with its own symbol). */
  function CategoryOf(msg: string): Option<Category> {
    if msg == [] then None
    else if msg[0] == '\U{1F6AB}' then Some(ImportBlocked)
    else if msg[0] == '\U{270F}' then Some(SyntaxProblem)
    else if msg[0] == '\U{2753}' then Some(UnknownName)
    else if msg[0] == '\U{1F527}' then Some(TypeMismatch)
    else if msg[0] == '\U{1F50D}' then Some(BadAttribute)
    else if msg[0] == '\U{274C}' then Some(Unclassified)
    else None
  }

  /** Exactly one category is applied, and it can be recovered from the message. */
  lemma CategoryRoundTrip(raw: string)
    ensures CategoryOf(MakeFriendlyError(raw)) == Some(Classify(raw))
  {
    var c := Classify(raw);
    assert MakeFriendlyError(raw)[0] == Prefix(c)[0];
  }

  /** A row of the ordered classification table: a category and the markers
      any one of which selects it. */
  datatype Rule = Rule(category: Category, markers: seq<string>)

  /** The translator's table, in priority order. */
  const Rules: seq<Rule> := [
    Rule(ImportBlocked, ["ImportError", "ModuleNotFoundError"]),
    Rule(SyntaxProblem, ["SyntaxError"]),
    Rule(UnknownName, ["NameError"]),
    Rule(TypeMismatch, ["TypeError"]),
    Rule(BadAttribute, ["AttributeError"])
  ]

  /** Does `raw` mention one of `markers`? */
  predicate AnyMarker(raw: string, markers: seq<string>)
    decreases |markers|
  {
    markers != [] && (Contains(raw, markers[0]) || AnyMarker(raw, markers[1..]))
  }

  /** Reference definition: the category of the first rule whose markers meet
      `raw`, and `Unclassified` when none does. */
  function FirstMatch(rules: seq<Rule>, raw: string): (c: Category)
    ensures c == Unclassified || exists k :: 0 <= k < |rules| && rules[k].category == c
    decreases |rules|
  {
    if rules == [] then Unclassified
    else if AnyMarker(raw, rules[0].markers) then rules[0].category
    else
      var c := FirstMatch(rules[1..], raw);
      assert c != Unclassified ==> exists k :: 0 <= k < |rules[1..]| && rules[1..][k].category == c;
      assert forall k :: 0 <= k < |rules[1..]| ==> rules[1..][k] == rules[k + 1];
      c
  }

  /** The translator is the first-match-wins scan of its ordered table. */
  lemma ClassifyIsFirstMatch(raw: string)
    ensures Classify(raw) == FirstMatch(Rules, raw)
  {
    var r1, r2, r3, r4 := Rules[1..], Rules[2..], Rules[3..], Rules[4..];
    assert r1[1..] == r2 && r2[1..] == r3 && r3[1..] == r4 && r4[1..] == [];
    SingleMarker(raw, "SyntaxError");
    SingleMarker(raw, "NameError");
    SingleMarker(raw, "TypeError");
    SingleMarker(raw, "AttributeError");
    assert AnyMarker(raw, Rules[0].markers) <==> Contains(raw, "ImportError") || Contains(raw, "ModuleNotFoundError") by {
      SingleMarker(raw, "ModuleNotFoundError");
      assert Rules[0].markers[1..] == ["ModuleNotFoundError"];
    }
    assert FirstMatch(r4, raw) == if Contains(raw, "AttributeError") then BadAttribute else Unclassified;
    assert FirstMatch(r3, raw) == if Contains(raw, "TypeError") then TypeMismatch else FirstMatch(r4, raw);
    assert FirstMatch(r2, raw) == if Contains(raw, "NameError") then UnknownName else FirstMatch(r3, raw);
    assert FirstMatch(r1, raw) == if Contains(raw, "SyntaxError") then SyntaxProblem else FirstMatch(r2, raw);
  }

  /** A one-marker rule matches exactly when its marker occurs. */
  lemma SingleMarker(raw: string, m: string)
    ensures AnyMarker(raw, [m]) <==> Contains(raw, m)
  {
    assert [m][1..] == [];
  }

  /** A message naming a blocked import tells the learner which imports are allowed. */
  lemma ImportErrorNamesAllowedImports(raw: string)
    requires Contains(raw, "ImportError") || Contains(raw, "ModuleNotFoundError")
    ensures Contains(MakeFriendlyError(raw), AllowedImports)
  {
    assert Classify(raw) == ImportBlocked;
    var p := Prefix(ImportBlocked) + raw + "\n";
    assert MakeFriendlyError(raw) == p + AllowedImports + "";
    ContainsInfix(p, AllowedImports, "");
  }

  /** First match wins: a syntax error is reported as such whatever later
      categories the message also mentions, unless it names a blocked import. */
  lemma SyntaxErrorWinsOverLaterCategories(raw: string)
    requires Contains(raw, "SyntaxError")
    requires !Contains(raw, "ImportError") && !Contains(raw, "ModuleNotFoundError")
    ensures MakeFriendlyError(raw) == "\U{270F}\U{FE0F} Syntax error in your code: " + raw
  {
  }
}
