/** Spreadsheet column letters (`col_letter`): bijective base 26, 1 -> "A",
    26 -> "Z", 27 -> "AA", with 0 -> "". */
module Columns {

  predicate IsLetters(s: string) {
    forall i :: 0 <= i < |s| ==> 'A' <= s[i] <= 'Z'
  }

  /** The name of column `n`: the last letter encodes (n - 1) % 26, the rest names (n - 1) / 26. */
  function ColName(n: nat): (s: string)
    ensures IsLetters(s)
    ensures |s| == 0 <==> n == 0
    decreases n
  {
    if n == 0 then "" else ColName((n - 1) / 26) + [(65 + (n - 1) % 26) as char]
  }

  /** The column number a name of letters stands for: the inverse of ColName. */
  function ColValue(s: string): nat
    requires IsLetters(s)
    decreases |s|
  {
    if s == [] then 0 else ColValue(s[..|s| - 1]) * 26 + (s[|s| - 1] as int - 64)
  }

  /** `col_letter(col_idx)`: builds the name from the right, one `divmod` per letter. */
  method ColLetter(colIdx: nat) returns (s: string)
    ensures s == ColName(colIdx)
    ensures IsLetters(s) && (s == [] <==> colIdx == 0)
  {
    var c := colIdx;
    s := "";
    while c != 0
      invariant ColName(colIdx) == ColName(c) + s
      decreases c
    {
      var rem := (c - 1) % 26;
      c := (c - 1) / 26;
      s := [(65 + rem) as char] + s;
    }
  }

  /** Reading a column name back gives the column number. */
  lemma {:induction false} ColValueOfName(n: nat)
    ensures ColValue(ColName(n)) == n
    decreases n
  {
    if n != 0 {
      var q := (n - 1) / 26;
      var s := ColName(n);
      ColValueOfName(q);
      assert s[..|s| - 1] == ColName(q);
    }
  }

  /** Every string of capital letters is the name of exactly the column it reads as. */
  lemma {:induction false} ColNameOfValue(s: string)
    requires IsLetters(s)
    ensures ColName(ColValue(s)) == s
    decreases |s|
  {
    if s != [] {
      var init := s[..|s| - 1];
      ColNameOfValue(init);
      var v := ColValue(s);
      assert (v - 1) / 26 == ColValue(init);
      assert (v - 1) % 26 == s[|s| - 1] as int - 65;
      assert init + [s[|s| - 1]] == s;
    }
  }

  /** Distinct columns have distinct names. */
  lemma ColNameInjective(a: nat, b: nat)
    ensures ColName(a) == ColName(b) ==> a == b
  {
    ColValueOfName(a);
    ColValueOfName(b);
  }

  /** Some fixed points of the naming, among them the default flag column 30 = "AD". */
  lemma ColNameExamples()
    ensures ColName(1) == "A" && ColName(26) == "Z" && ColName(27) == "AA"
    ensures ColName(30) == "AD" && ColName(702) == "ZZ" && ColName(703) == "AAA"
  {
    assert ColName(1) == "A";
    assert ColName(27) == ColName(1) + "A";
    assert ColName(30) == ColName(1) + "D";
    assert ColName(702) == ColName(26) + "Z";
    assert ColName(703) == ColName(27) + "A";
  }
}
