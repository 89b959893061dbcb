/**
 * The naive code converter (`convert_code`): language names compared after
 * lower-casing, then a fixed sequence of literal `str.replace` calls chosen
 * by the (source, target) pair. Nothing is parsed: a pattern is rewritten
 * wherever it occurs, inside identifiers and string literals too.
 */
module Converter {

  import opened Text

  /** One `str.replace(pat, rep)` call. */
  datatype Rule = Rule(pat: string, rep: string)

  predicate PatternsNonEmpty(rules: seq<Rule>) {
    forall i :: 0 <= i < |rules| ==> rules[i].pat != []
  }

  /** A list of rewrites, each with a non-empty pattern as every call in main.py has. */
  type RuleList = rules: seq<Rule> | PatternsNonEmpty(rules)

  /** The JavaScript to Python rewrites, in the order main.py applies them. */
  const JsToPython: RuleList := [
    Rule("console.log", "print"),
    Rule("===", "=="),
    Rule("!==", "!="),
    Rule("true", "True"),
    Rule("false", "False")
  ]

  /** The Python to JavaScript rewrites, in the order main.py applies them. */
  const PythonToJs: RuleList := [
    Rule("print(", "console.log("),
    Rule("True", "true"),
    Rule("False", "false")
  ]

  const SameLanguageNote := "Source and target languages are the same."
  const JsToPythonNote := "Converted console.log to print and booleans to Python style."
  const PythonToJsNote := "Converted print to console.log and booleans to JS style."
  const GenericNote := "Generic transformation applied. Manual review recommended."

  /** The rules applied one after the other, each to the result of the previous one. */
  function ApplyRules(s: string, rules: RuleList): (r: string)
    decreases |rules|
  {
    if rules == [] then s else ApplyRules(ReplaceAll(s, rules[0].pat, rules[0].rep), rules[1..])
  }

  /** A text holding none of the patterns passes through every rule unchanged. */
  lemma {:induction false} ApplyRulesUnchanged(s: string, rules: RuleList)
    requires forall i :: 0 <= i < |rules| ==> !Contains(s, rules[i].pat)
    ensures ApplyRules(s, rules) == s
    decreases |rules|
  {
    if rules != [] {
      ReplaceAllAbsent(s, rules[0].pat, rules[0].rep);
      ApplyRulesUnchanged(s, rules[1..]);
    }
  }

  /** Applying one list of rules and then another is applying their concatenation. */
  lemma {:induction false} ApplyRulesConcat(s: string, r1: RuleList, r2: RuleList)
    ensures PatternsNonEmpty(r1 + r2)
    ensures ApplyRules(s, r1 + r2) == ApplyRules(ApplyRules(s, r1), r2)
    decreases |r1|
  {
    if r1 == [] {
      assert r1 + r2 == r2;
    } else {
      assert (r1 + r2)[1..] == r1[1..] + r2;
      ApplyRulesConcat(ReplaceAll(s, r1[0].pat, r1[0].rep), r1[1..], r2);
    }
  }

  predicate IsJs(lang: string) { lang == "javascript" || lang == "js" }

  /**
   * What `convert_code` answers: the language names are compared after
   * lower-casing, the code is stripped first, and the (source, target) pair
   * selects the rules applied and the one note sentence returned.
   */
  predicate Converts(sourceLanguage: string, targetLanguage: string, code: string,
                     converted: string, notes: string)
  {
    var src, tgt, stripped := Lower(sourceLanguage), Lower(targetLanguage), Strip(code);
    && (src == tgt ==> converted == stripped && notes == SameLanguageNote)
    && (src != tgt && IsJs(src) && tgt == "python" ==>
          converted == ApplyRules(stripped, JsToPython) && notes == JsToPythonNote)
    && (src != tgt && src == "python" && IsJs(tgt) ==>
          converted == ApplyRules(stripped, PythonToJs) && notes == PythonToJsNote)
    && (src != tgt && !(IsJs(src) && tgt == "python") && !(src == "python" && IsJs(tgt)) ==>
          converted == stripped && notes == GenericNote)
  }

  /**
   * `convert_code`: returns the converted code and the notes, which are the
   * notes list joined by spaces (always exactly one sentence).
   */
  method ConvertCode(sourceLanguage: string, targetLanguage: string, code: string)
    returns (converted: string, notes: string)
    ensures Converts(sourceLanguage, targetLanguage, code, converted, notes)
  {
    var src := Lower(sourceLanguage);
    var tgt := Lower(targetLanguage);
    var stripped := Strip(code);
    if src == tgt {
      return stripped, SameLanguageNote;
    }
    converted := stripped;
    var noteList: seq<string> := [];
    if (src == "javascript" || src == "js") && tgt == "python" {
      JsToPythonCalls(stripped);
      converted := ReplaceAll(converted, "console.log", "print");
      converted := ReplaceAll(converted, "===", "==");
      converted := ReplaceAll(converted, "!==", "!=");
      converted := ReplaceAll(converted, "true", "True");
      converted := ReplaceAll(converted, "false", "False");
      noteList := noteList + [JsToPythonNote];
    } else if src == "python" && (tgt == "javascript" || tgt == "js") {
      PythonToJsCalls(stripped);
      converted := ReplaceAll(converted, "print(", "console.log(");
      converted := ReplaceAll(converted, "True", "true");
      converted := ReplaceAll(converted, "False", "false");
      noteList := noteList + [PythonToJsNote];
    } else {
      noteList := noteList + [GenericNote];
    }
    notes := Join(" ", noteList);
  }

  /** The JavaScript to Python rules spelled out as the five calls of main.py. */
  lemma JsToPythonCalls(s: string)
    ensures ApplyRules(s, JsToPython) ==
      ReplaceAll(ReplaceAll(ReplaceAll(ReplaceAll(ReplaceAll(s,
        "console.log", "print"), "===", "=="), "!==", "!="), "true", "True"), "false", "False")
  {
    var r := JsToPython;
    assert r[1..][1..][1..][1..][1..] == [];
  }

  /** The Python to JavaScript rules spelled out as the three calls of main.py. */
  lemma PythonToJsCalls(s: string)
    ensures ApplyRules(s, PythonToJs) ==
      ReplaceAll(ReplaceAll(ReplaceAll(s, "print(", "console.log("), "True", "true"), "False", "false")
  {
    var r := PythonToJs;
    assert r[1..][1..][1..] == [];
  }

  /** Without `=` or `!` in the text, neither equality rule fires. */
  lemma NoEqualities(s: string)
    requires '=' !in s && '!' !in s
    ensures ReplaceAll(ReplaceAll(s, "===", "=="), "!==", "!=") == s
  {
    Untouched(s, "===", "==");
    Untouched(s, "!==", "!=");
  }

  /** A rule whose pattern does not start anywhere in the text leaves it unchanged. */
  lemma Untouched(s: string, pat: string, rep: string)
    requires pat != [] && pat[0] !in s
    ensures ReplaceAll(s, pat, rep) == s
  {
    ReplaceAllKeepsPrefix(s, "", pat, rep);
    assert s + "" == s;
  }

  /** A JavaScript to Python pair selects the five JavaScript rules and their note. */
  lemma ConvertsJsToPython(src: string, tgt: string, code: string, converted: string, notes: string)
    requires Converts(src, tgt, code, converted, notes)
    requires IsJs(Lower(src)) && Lower(tgt) == "python"
    ensures converted == ApplyRules(Strip(code), JsToPython) && notes == JsToPythonNote
  {
  }

  /** A Python to JavaScript pair selects the three Python rules and their note. */
  lemma ConvertsPythonToJs(src: string, tgt: string, code: string, converted: string, notes: string)
    requires Converts(src, tgt, code, converted, notes)
    requires Lower(src) == "python" && IsJs(Lower(tgt))
    ensures converted == ApplyRules(Strip(code), PythonToJs) && notes == PythonToJsNote
  {
  }
}
