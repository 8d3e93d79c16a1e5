/** The status bar's two texts: the language name and the cursor
    position. */
module StatusLine {
  import opened Text
  import opened Schema

  /** formatLanguage: "Plain Text" for the empty tag, otherwise the tag
      with its first character in upper case and the rest as it is. */
  function FormatLanguage(language: string): (shown: string)
    ensures shown != []
    ensures language == [] ==> shown == "Plain Text"
    ensures language != [] ==> |shown| == |language| && shown[0] == UpperChar(language[0])
                               && shown[1..] == language[1..]
  {
    if language == [] then "Plain Text" else [UpperChar(language[0])] + language[1..]
  }

  /** Formatting a formatted name changes nothing. */
  lemma FormatLanguageIdempotent(language: string)
    ensures FormatLanguage(FormatLanguage(language)) == FormatLanguage(language)
  {
    var shown := FormatLanguage(language);
    assert [shown[0]] + shown[1..] == shown;
  }

  /** "Ln <line>, Col <column>". */
  function PositionLabel(p: Position): string {
    "Ln " + IntToString(p.lineNumber) + ", Col " + IntToString(p.column)
  }

  /** Different positions have different labels. */
  lemma PositionLabelInjective(p: Position, q: Position)
    requires PositionLabel(p) == PositionLabel(q)
    ensures p == q
  {
    var a, b := IntToString(p.lineNumber), IntToString(p.column);
    var a', b' := IntToString(q.lineNumber), IntToString(q.column);
    SplitAtComma(a, b, a', b');
    IntToStringInjective(p.lineNumber, q.lineNumber);
    IntToStringInjective(p.column, q.column);
  }

  /** A position label determines the two numerals it is built from, since a
      numeral holds no comma. */
  lemma SplitAtComma(a: string, b: string, a': string, b': string)
    requires ',' !in a && ',' !in a'
    requires "Ln " + a + ", Col " + b == "Ln " + a' + ", Col " + b'
    ensures a == a' && b == b'
  {
    var s := "Ln " + a + ", Col " + b;
    var t := "Ln " + a' + ", Col " + b';
    assert s[3 + |a|] == ',' && t[3 + |a'|] == ',';
    assert forall i :: 3 <= i < 3 + |a| ==> s[i] == a[i - 3];
    assert forall i :: 3 <= i < 3 + |a'| ==> t[i] == a'[i - 3];
    assert |a| == |a'|;
    assert a == s[3..3 + |a|] && a' == t[3..3 + |a'|];
    assert b == s[3 + |a| + 6..] && b' == t[3 + |a'| + 6..];
  }
}
