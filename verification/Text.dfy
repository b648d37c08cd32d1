/** White space at the ends of a text, as the programs here take it off. */
module Text {

  predicate IsSpace(c: char) {
    c == ' ' || c == '\t' || c == '\n' || c == '\r' || c as int == 11 || c as int == 12
  }

  function TrimLeft(s: string): string {
    if s != "" && IsSpace(s[0]) then TrimLeft(s[1..]) else s
  }

  function TrimRight(s: string): string {
    if s != "" && IsSpace(s[|s| - 1]) then TrimRight(s[..|s| - 1]) else s
  }

  function Trimmed(s: string): string {
    TrimRight(TrimLeft(s))
  }

  predicate AllSpace(s: string) {
    forall i :: 0 <= i < |s| ==> IsSpace(s[i])
  }

  /** What is trimmed off is white space, and what is left neither begins nor ends with any. */
  lemma TrimmedExactly(s: string) returns (a: string, b: string)
    ensures s == a + Trimmed(s) + b && AllSpace(a) && AllSpace(b)
    ensures Trimmed(s) != "" ==> !IsSpace(Trimmed(s)[0]) && !IsSpace(Trimmed(s)[|Trimmed(s)| - 1])
  {
    a := LeftOf(s);
    b := RightOf(TrimLeft(s));
    assert s == a + (Trimmed(s) + b) == a + Trimmed(s) + b;
  }

  lemma {:induction false} LeftOf(s: string) returns (a: string)
    ensures s == a + TrimLeft(s) && AllSpace(a) && (TrimLeft(s) != "" ==> !IsSpace(TrimLeft(s)[0]))
  {
    if s != "" && IsSpace(s[0]) {
      var rest := LeftOf(s[1..]);
      a := [s[0]] + rest;
      assert s == [s[0]] + s[1..];
    } else {
      a := "";
    }
  }

  lemma {:induction false} RightOf(s: string) returns (b: string)
    ensures s == TrimRight(s) + b && AllSpace(b)
    ensures TrimRight(s) != "" ==> TrimRight(s)[0] == s[0] && !IsSpace(TrimRight(s)[|TrimRight(s)| - 1])
  {
    if s != "" && IsSpace(s[|s| - 1]) {
      var rest := RightOf(s[..|s| - 1]);
      b := rest + [s[|s| - 1]];
      assert s == s[..|s| - 1] + [s[|s| - 1]];
    } else {
      b := "";
    }
  }

  /** Nothing is left exactly of a text that is all white space. */
  lemma BlankExactly(s: string)
    ensures Trimmed(s) == "" <==> AllSpace(s)
  {
    var a, b := TrimmedExactly(s);
    assert Trimmed(s) != "" ==> s[|a|] == Trimmed(s)[0] && !IsSpace(s[|a|]);
  }
}
