/** The characters that the SQL tokenizer, the grammar and the JSON reader tell apart. A string holds bytes: every
    theorem about it holds for any characters. */
module Characters {
  import opened Options

  predicate IsSpace(c: char) {
    c == ' ' || c == '\t' || c == '\n' || c == '\U{0B}' || c == '\U{0C}' || c == '\r'
  }

  predicate IsDigit(c: char) {
    '0' <= c <= '9'
  }

  /** `StringUtil::CharacterIsOperator`. */
  predicate IsPunctuation(c: char) {
    c != '_' && ('!' <= c <= '/' || ':' <= c <= '@' || '[' <= c <= '`' || '{' <= c <= '~')
  }

  predicate IsSingleByteOperator(c: char) {
    c in "(){}[],?$-#"
  }

  predicate IsControlFlow(c: char) {
    c in "'-;\"."
  }

  predicate IsInitialNumber(c: char) {
    IsDigit(c) || c == '.'
  }

  predicate IsScientific(c: char) {
    c == 'e' || c == 'E'
  }

  predicate IsSpecialStringCharacter(c: char) {
    c in "NnXxEeBb"
  }

  predicate IsKeyword(c: char) {
    !IsSingleByteOperator(c) && !IsPunctuation(c) && !IsSpace(c) && !IsControlFlow(c)
  }

  predicate IsOperator(c: char) {
    !IsSingleByteOperator(c) && !IsControlFlow(c) && IsPunctuation(c)
  }

  /** The characters that let an operator end in '+'. */
  predicate IsOperatorSpecial(c: char) {
    c in "~!@#%^&|`?"
  }

  predicate IsDollarTag(c: char) {
    'A' <= c <= 'Z' || 'a' <= c <= 'z' || IsDigit(c) || c == '_' || c >= '\U{80}'
  }

  /** ASCII case folding, as in `StringUtil::Lower` and `StringUtil::CIEquals`. */
  function LowerChar(c: char): char {
    if 'A' <= c <= 'Z' then c - 'A' + 'a' else c
  }

  function Lower(s: string): string {
    seq(|s|, i requires 0 <= i < |s| => LowerChar(s[i]))
  }

  predicate CIEquals(a: string, b: string) {
    Lower(a) == Lower(b)
  }

  /** The same letter in the other case. */
  predicate OtherCase(c: char, d: char) {
    ('A' <= c <= 'Z' && d as int == c as int + 32) || ('a' <= c <= 'z' && d as int == c as int - 32)
  }

  /** Texts are equal without regard to case exactly when they differ only in the case of letters. */
  lemma EqualButForCase(a: string, b: string)
    ensures CIEquals(a, b) <==> |a| == |b| && forall i :: 0 <= i < |a| ==> a[i] == b[i] || OtherCase(a[i], b[i])
  {
    if |a| == |b| {
      forall i | 0 <= i < |a|
        ensures Lower(a)[i] == Lower(b)[i] <==> a[i] == b[i] || OtherCase(a[i], b[i]) { SameLowerChar(a[i], b[i]); }
      if forall i :: 0 <= i < |a| ==> a[i] == b[i] || OtherCase(a[i], b[i]) { assert Lower(a) == Lower(b); }
      if Lower(a) == Lower(b) { assert forall i :: 0 <= i < |a| ==> Lower(a)[i] == Lower(b)[i]; }
    } else {
      assert |Lower(a)| == |a| && |Lower(b)| == |b|;
    }
  }

  lemma SameLowerChar(c: char, d: char)
    ensures LowerChar(c) == LowerChar(d) <==> c == d || OtherCase(c, d)
  {
  }

  /** The digits of hexadecimal numbers, by their place. */
  lemma HexDigits(k: nat)
    requires k < 16
    ensures HexValue("0123456789abcdef"[k]) == Some(k) && HexValue("0123456789ABCDEF"[k]) == Some(k)
  {
  }

  function HexValue(c: char): Option<nat> {
    if IsDigit(c) then Some(c as int - '0' as int)
    else if 'a' <= c <= 'f' then Some(c as int - 'a' as int + 10)
    else if 'A' <= c <= 'F' then Some(c as int - 'A' as int + 10)
    else None
  }
}
