/** internal/htmlattr/name.go: which attribute names are one attribute, and which may be written. */
module AttrNames {
  import opened Text

  /** FoldName: the spelling under which a name is used as a map key. */
  function Fold(name: string): (f: string)
    ensures |f| == |name|
  {
    Lower(name)
  }

  /** NameRune */
  predicate NameRune(c: char) {
    var r := c as int;
    && !(r <= 0x20 || 0x7f <= r <= 0x9f)
    && !(0xfdd0 <= r <= 0xfdef) && !(r % 0x10000 >= 0xfffe)
    && c != '\"' && c != '\'' && c != '>' && c != '/' && c != '=' && c != '<' && c != '{' && c != '}' && c != '`'
  }

  predicate ValidName(k: string) {
    k != "" && forall i :: 0 <= i < |k| ==> NameRune(k[i])
  }

  /** SameName compares without folding either name first. */
  method SameName(a: string, b: string) returns (same: bool)
    ensures same == (Fold(a) == Fold(b))
  {
    if |a| != |b| {
      return false;
    }
    for i := 0 to |a|
      invariant forall k :: 0 <= k < i ==> LowerChar(a[k]) == LowerChar(b[k])
    {
      if LowerChar(a[i]) != LowerChar(b[i]) {
        assert Fold(a)[i] != Fold(b)[i];
        return false;
      }
    }
    return true;
  }

  /** Every spelling of an attribute is valid, or none is. */
  lemma {:induction false} ValidByFold(a: string, b: string)
    requires Fold(a) == Fold(b)
    ensures ValidName(a) == ValidName(b)
  {
    assert |a| == |b|;
    forall i | 0 <= i < |a|
      ensures NameRune(a[i]) == NameRune(b[i])
    {
      assert Fold(a)[i] == LowerChar(a[i]) && Fold(b)[i] == LowerChar(b[i]);
    }
  }

  lemma {:induction false} FoldIsStable(a: string)
    ensures Fold(Fold(a)) == Fold(a)
  {}

  // ----- as the HTML Standard has it -----

  predicate IsControl(c: char) { '\U{0}' <= c <= '\U{1F}' || '\U{7F}' <= c <= '\U{9F}' }

  /** The 66 noncharacters: a block of 32, and the last two code points of each of the 17 planes. */
  predicate IsNoncharacter(c: char) {
    || 0xFDD0 <= c as int < 0xFDD0 + 32
    || exists plane :: 0 <= plane < 17 && plane * 0x10000 + 0xFFFE <= c as int < (plane + 1) * 0x10000
  }

  /** The names that section 13.1.2.3 allows in a document. */
  predicate StandardName(k: string) {
    k != "" && forall c :: c in k ==> !IsControl(c) && !IsNoncharacter(c) && c !in " \"'>/="
  }

  /** The names that may be written are those of the Standard without the four characters that are
      kept for tags and literals. */
  lemma {:induction false} ValidIsStandard(k: string)
    ensures ValidName(k) <==> StandardName(k) && forall c :: c in k ==> c !in "<{}`"
  {
    forall c
      ensures NameRune(c) <==> !IsControl(c) && !IsNoncharacter(c) && c !in " \"'>/=" && c !in "<{}`"
    {
      NameRuneIsStandard(c);
    }
    assert forall i :: 0 <= i < |k| ==> k[i] in k;
  }

  lemma {:induction false} NoncharacterEnds(c: char)
    ensures IsNoncharacter(c) <==> 0xfdd0 <= c as int <= 0xfdef || c as int % 0x10000 >= 0xfffe
  {
    var plane := c as int / 0x10000;
    assert 0 <= plane < 17;
    if c as int % 0x10000 >= 0xfffe {
      assert plane * 0x10000 + 0xFFFE <= c as int < (plane + 1) * 0x10000;
    }
  }

  lemma {:induction false} NameRuneIsStandard(c: char)
    ensures NameRune(c) <==> !IsControl(c) && !IsNoncharacter(c) && c !in " \"'>/=" && c !in "<{}`"
  {
    hide IsNoncharacter;
    NoncharacterEnds(c);
  }

  /** The characters at which the tokenizer leaves the attribute name state, section 13.2.5.33. */
  predicate EndsName(c: char) { c in "\t\n\U{C} /=>" }

  /** The name that the tokenizer reads in that state from the start of a text. */
  function ReadName(text: string): string {
    if text == [] || EndsName(text[0]) then ""
    else [if text[0] == '\0' then '\U{FFFD}' else if 'A' <= text[0] <= 'Z' then text[0] - 'A' + 'a' else text[0]] + ReadName(text[1..])
  }

  /** A valid name is read back whole, in lower case, from what is written for the attribute: after the
      name comes an equals sign, white space or the end of the tag. */
  lemma {:induction false} NameIsReadBack(k: string, rest: string)
    requires k == "" || ValidName(k)
    requires rest == "" || EndsName(rest[0])
    ensures ReadName(k + rest) == Fold(k)
  {
    hide Fold, NameRune, EndsName;
    FoldFirst(k);
    if k == "" {
      assert k + rest == rest;
    } else {
      assert (k + rest)[1..] == k[1..] + rest;
      NameRuneStays(k[0]);
      NameIsReadBack(k[1..], rest);
    }
  }

  lemma {:induction false} FoldFirst(k: string)
    ensures Fold(k) == if k == "" then "" else [LowerChar(k[0])] + Fold(k[1..])
  {}

  lemma {:induction false} NameRuneStays(c: char)
    requires NameRune(c)
    ensures !EndsName(c) && c != '\0'
  {}
}
