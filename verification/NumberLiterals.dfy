/** Number tokens, and the matcher that throws at some. */
module NumberLiterals {
  import opened Characters
  import opened Tokenizer
  import opened TokenizerLaws
  import opened Tokens

  datatype NumberMatch = Taken | Refused | Thrown

  /** The characters from i on, after an exponent mark or before the first one. */
  function MatchFrom(text: string, i: nat, scientific: bool): NumberMatch
    requires i <= |text|
    decreases |text| - i
  {
    if i == |text| then Taken
    else if IsScientific(text[i]) && scientific then Thrown
    else
      var seen := scientific || IsScientific(text[i]);
      if (seen && (text[i] == '+' || text[i] == '-')) || IsInitialNumber(text[i]) || IsScientific(text[i])
          || text[i] == '_'
      then MatchFrom(text, i + 1, seen)
      else Refused
  }

  function NumberLiteral(text: string): NumberMatch {
    if text == "" || !IsInitialNumber(text[0]) || text == "." then Refused else MatchFrom(text, 1, false)
  }

  /** `MatchNumberLiteral`. */
  method MatchNumberLiteral(text: string) returns (m: NumberMatch)
    ensures m == NumberLiteral(text)
  {
    if text == "" || !IsInitialNumber(text[0]) {
      return Refused;
    }
    if |text| == 1 && text[0] == '.' {
      return Refused;
    }
    assert text != ".";
    var scientific_notation := false;
    for i := 1 to |text|
      invariant MatchFrom(text, i, scientific_notation) == NumberLiteral(text)
    {
      if IsScientific(text[i]) {
        if scientific_notation {
          return Thrown;
        }
        scientific_notation := true;
      }
      if scientific_notation && (text[i] == '+' || text[i] == '-') {
        continue;
      }
      if !(IsInitialNumber(text[i]) || IsScientific(text[i]) || text[i] == '_') {
        return Refused;
      }
    }
    m := Taken;
  }

  function Exponents(text: string, i: nat): nat
    requires i <= |text|
    decreases |text| - i
  {
    if i == |text| then 0 else (if IsScientific(text[i]) then 1 else 0) + Exponents(text, i + 1)
  }

  lemma {:induction false} MatchesFrom(text: string, i: nat, scientific: bool)
    requires 1 <= i <= |text| && forall k :: i <= k < |text| ==> NumberContinues(text, k)
    requires IsScientific(text[i - 1]) ==> scientific
    ensures MatchFrom(text, i, scientific)
         == if (if scientific then 1 else 0) + Exponents(text, i) >= 2 then Thrown else Taken
    decreases |text| - i
  {
    if i < |text| {
      assert NumberContinues(text, i);
      if !(IsScientific(text[i]) && scientific) { MatchesFrom(text, i + 1, scientific || IsScientific(text[i])); }
    }
  }

  /** Every number token but a lone dot is taken, and is an exception if it has two exponents. */
  lemma NumberTokenMatches(text: string)
    requires NumberOpen(text)
    ensures NumberLiteral(text) == if text == "." then Refused else if Exponents(text, 1) >= 2 then Thrown else Taken
  {
    NumberStopRuns(text, 1);
    if text != "." { MatchesFrom(text, 1, false); }
  }

  /** 1e5e5 is read as one number, at which the matcher throws. */
  lemma TwoExponents()
    ensures First("1e5e5;", 0, 0) == Closed([Tok(Token("1e5e5", 0))], 5, 5)
    ensures NumberLiteral("1e5e5") == Thrown
  {
    var sql := "1e5e5;";
    NumberStopIs(sql, 1, 5);
    assert sql[0..5] == "1e5e5";
    assert NumberRest(sql, 1, 0) == Closed(Piece(sql, 0, 5), 5, 5);
    NumberStopIs("1e5e5", 1, 5);
    NumberTokenMatches("1e5e5");
    assert Exponents("1e5e5", 3) == 1 + Exponents("1e5e5", 4);
    assert Exponents("1e5e5", 1) == 1 + Exponents("1e5e5", 2);
  }
}
