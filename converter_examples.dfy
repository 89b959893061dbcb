/**
 * Two sample conversions, worked through the handler,
 * with the single literal steps they are proved from.
 */
module ConverterExamples {

  import opened Text
  import opened Converter

  /** "console.log(true)" from JavaScript to Python, through the whole handler. */
  method ConvertJsSample() {
    var converted, notes := ConvertCode("javascript", "python", "console.log(true)");
    SampleLanguages();
    ConvertsJsToPython("javascript", "python", "console.log(true)", converted, notes);
    JsToPythonExample();
    assert converted == "print(True)" && notes == JsToPythonNote;
  }

  /** "print(False)" from Python to JavaScript, through the whole handler. */
  method ConvertPythonSample() {
    var converted, notes := ConvertCode("python", "javascript", "print(False)");
    SampleLanguages();
    ConvertsPythonToJs("python", "javascript", "print(False)", converted, notes);
    PythonToJsExample();
    assert converted == "console.log(false)" && notes == PythonToJsNote;
  }

  /** With equal language names the code comes back stripped, not as given. */
  method SameLanguageSample() {
    var converted, notes := ConvertCode("python", "python", " x");
    SampleLanguages();
    StripLeadingSpace();
    assert converted == "x" && converted != " x" && notes == SameLanguageNote;
  }

  lemma StripLeadingSpace()
    ensures Strip(" x") == "x"
  {
    assert " x" == " " + "x" + "";
    StripPadded(" ", "x", "");
    NoOuterSpace("x");
  }

  /** "console.log(true)" becomes "print(True)". */
  lemma JsToPythonExample()
    ensures Strip("console.log(true)") == "console.log(true)"
    ensures ApplyRules("console.log(true)", JsToPython) == "print(True)"
  {
    NoOuterSpace("console.log(true)");
    ReplaceConsoleLog();
    StrictEqualUntouched();
    StrictNotEqualUntouched();
    ReplaceTrue();
    FalseUntouched();
    JsChain("console.log(true)", "print(true)", "print(True)");
  }

  /** Text that neither starts nor ends with white space is its own `strip()`. */
  lemma NoOuterSpace(s: string)
    requires s != [] && !IsSpace(s[0]) && !IsSpace(s[|s| - 1])
    ensures Strip(s) == s
  {
  }

  lemma StrictEqualUntouched()
    ensures ReplaceAll("print(true)", "===", "==") == "print(true)"
  {
    Untouched("print(true)", "===", "==");
  }

  lemma StrictNotEqualUntouched()
    ensures ReplaceAll("print(true)", "!==", "!=") == "print(true)"
  {
    Untouched("print(true)", "!==", "!=");
  }

  lemma FalseUntouched()
    ensures ReplaceAll("print(True)", "false", "False") == "print(True)"
  {
    Untouched("print(True)", "false", "False");
  }

  /** The five JavaScript to Python rules, given the outcome of each call. */
  lemma JsChain(s: string, a: string, b: string)
    requires ReplaceAll(s, "console.log", "print") == a
    requires ReplaceAll(a, "===", "==") == a && ReplaceAll(a, "!==", "!=") == a
    requires ReplaceAll(a, "true", "True") == b
    requires ReplaceAll(b, "false", "False") == b
    ensures ApplyRules(s, JsToPython) == b
  {
    JsToPythonCalls(s);
  }

  /** "print(False)" becomes "console.log(false)". */
  lemma PythonToJsExample()
    ensures Strip("print(False)") == "print(False)"
    ensures ApplyRules("print(False)", PythonToJs) == "console.log(false)"
  {
    NoOuterSpace("print(False)");
    ReplacePrint();
    TrueUntouched();
    ReplaceFalse();
    PyChain("print(False)", "console.log(False)", "console.log(false)");
  }

  lemma TrueUntouched()
    ensures ReplaceAll("console.log(False)", "True", "true") == "console.log(False)"
  {
    Untouched("console.log(False)", "True", "true");
  }

  /** The three Python to JavaScript rules, given the outcome of each call. */
  lemma PyChain(s: string, a: string, b: string)
    requires ReplaceAll(s, "print(", "console.log(") == a
    requires ReplaceAll(a, "True", "true") == a
    requires ReplaceAll(a, "False", "false") == b
    ensures ApplyRules(s, PythonToJs) == b
  {
    PythonToJsCalls(s);
  }

  // The single `replace` steps of the two samples, one literal fact per lemma.

  lemma ReplaceConsoleLog()
    ensures ReplaceAll("console.log(true)", "console.log", "print") == "print(true)"
  {
  }

  lemma ReplacePrint()
    ensures ReplaceAll("print(False)", "print(", "console.log(") == "console.log(False)"
  {
  }

  lemma ReplaceTrue()
    ensures ReplaceAll("print(true)", "true", "True") == "print(True)"
  {
    ReplaceTrueSplit();
    ReplaceTrueTail();
  }

  lemma ReplaceTrueSplit()
    ensures ReplaceAll("print(true)", "true", "True") == "prin" + ReplaceAll("t(true)", "true", "True")
  {
    ReplaceAllKeepsPrefix("prin", "t(true)", "true", "True");
    PrintTrueParts();
  }

  lemma PrintTrueParts()
    ensures "prin" + "t(true)" == "print(true)"
  {
  }

  lemma ReplaceTrueTail()
    ensures "prin" + ReplaceAll("t(true)", "true", "True") == "print(True)"
  {
    assert "t(true)"[1] != "true"[1];
    ReplaceAllKeepsFirst("t(true)", "true", "True");
    ReplaceTrueParen();
  }

  lemma ReplaceTrueParen()
    ensures ReplaceAll("(true)", "true", "True") == "(True)"
  {
    ReplaceAllKeepsPrefix("(", "true)", "true", "True");
    assert "(" + "true)" == "(true)";
  }

  lemma ReplaceFalse()
    ensures ReplaceAll("console.log(False)", "False", "false") == "console.log(false)"
  {
    ReplaceFalseSplit();
    ReplaceFalseTail();
  }

  lemma ReplaceFalseSplit()
    ensures ReplaceAll("console.log(False)", "False", "false") == "console.log(" + ReplaceAll("False)", "False", "false")
  {
    ReplaceAllKeepsPrefix("console.log(", "False)", "False", "false");
    assert "console.log(" + "False)" == "console.log(False)";
  }

  lemma ReplaceFalseTail()
    ensures "console.log(" + ReplaceAll("False)", "False", "false") == "console.log(false)"
  {
    assert ReplaceAll("False)", "False", "false") == "false)";
  }

  /** The language names used by the samples are already lower case. */
  lemma SampleLanguages()
    ensures Lower("javascript") == "javascript" && Lower("python") == "python"
  {
    LowerOfLowerCase("javascript");
    LowerOfLowerCase("python");
  }
}
