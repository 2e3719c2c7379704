/** The calculator's fixed tables (investment categories, the categories that
    need an explicit asset name, the colour palette) and the two string
    helpers the entry logic relies on: whitespace trimming of the asset name
    and the text key under which the asset list groups its entries. */
module Categories {

  /** The category options offered by the entry form, alphabetical. */
  const InvestmentCategories: seq<string> := [
    "Ações",
    "Certificados",
    "Depósitos a prazo",
    "ETFs",
    "Fundo de investimentos",
    "Obrigações",
    "PPR",
    "Poupança"
  ]

  /** Categories whose entries must carry an asset name (a ticker, a fund). */
  const CategoriesRequiringName: seq<string> := ["Ações", "ETFs", "Fundo de investimentos", "Obrigações"]

  /** The chart palette; category number i gets colour i modulo its length. */
  const Colors: seq<string> := [
    "#3b82f6", "#10b981", "#f59e0b", "#ef4444", "#8b5cf6", "#ec4899", "#14b8a6", "#f97316"
  ]

  predicate RequiresName(category: string) {
    category in CategoriesRequiringName
  }

  /** Position of the first occurrence of `x` in `s`. */
  function IndexOf<T(==)>(s: seq<T>, x: T): (i: nat)
    requires x in s
    ensures i < |s| && s[i] == x
    ensures x !in s[..i]
  {
    if s[0] == x then 0 else IndexOf(s[1..], x) + 1
  }

  /** The colour table lookup `categoryColors[category] || colors[0]`, for
      strings that are not names of inherited object members. */
  function CategoryColor(category: string): (color: string)
    ensures color in Colors
    ensures category !in InvestmentCategories ==> color == Colors[0]
  {
    if category in InvestmentCategories then
      Colors[IndexOf(InvestmentCategories, category) % |Colors|]
    else
      Colors[0]
  }

  /** Every category of the list is drawn in its own colour. */
  lemma DistinctCategoryColors(c1: string, c2: string)
    requires c1 in InvestmentCategories && c2 in InvestmentCategories
    requires c1 != c2
    ensures CategoryColor(c1) != CategoryColor(c2)
  {
    var i1, i2 := IndexOf(InvestmentCategories, c1), IndexOf(InvestmentCategories, c2);
    assert i1 != i2;
    ColorOfListed(c1);
    ColorOfListed(c2);
    ColorsDistinct(i1, i2);
  }

  lemma ColorOfListed(category: string)
    requires category in InvestmentCategories
    ensures CategoryColor(category) == Colors[IndexOf(InvestmentCategories, category)]
  {
    SmallMod(IndexOf(InvestmentCategories, category), |Colors|);
  }

  lemma SmallMod(i: nat, n: nat)
    requires i < n
    ensures i % n == i
  {
  }

  lemma ColorsDistinct(i: nat, j: nat)
    requires i < |Colors| && j < |Colors| && i != j
    ensures Colors[i] != Colors[j]
  {
  }

  /** Every name-required category is one of the offered categories. */
  lemma RequiredNamesAreCategories(category: string)
    requires RequiresName(category)
    ensures category in InvestmentCategories
  {
  }

  /** The characters that JavaScript's `String.prototype.trim` removes:
      the WhiteSpace and LineTerminator productions of ECMAScript. */
  predicate IsWhiteSpace(ch: char) {
    ch in {'\t', '\n', '\U{000B}', '\U{000C}', '\r', ' ', '\U{00A0}', '\U{1680}',
           '\U{2000}', '\U{2001}', '\U{2002}', '\U{2003}', '\U{2004}', '\U{2005}',
           '\U{2006}', '\U{2007}', '\U{2008}', '\U{2009}', '\U{200A}', '\U{2028}',
           '\U{2029}', '\U{202F}', '\U{205F}', '\U{3000}', '\U{FEFF}'}
  }

  predicate AllWhiteSpace(s: string) {
    forall k :: 0 <= k < |s| ==> IsWhiteSpace(s[k])
  }

  /** Number of white-space characters at the front of `s`. */
  function LeadingSpace(s: string): (n: nat)
    ensures n <= |s| && AllWhiteSpace(s[..n])
    ensures n < |s| ==> !IsWhiteSpace(s[n])
  {
    if s == [] || !IsWhiteSpace(s[0]) then 0 else LeadingSpace(s[1..]) + 1
  }

  /** Number of white-space characters at the back of `s`. */
  function TrailingSpace(s: string): (n: nat)
    ensures n <= |s| && AllWhiteSpace(s[|s| - n..])
    ensures n < |s| ==> !IsWhiteSpace(s[|s| - 1 - n])
  {
    if s == [] || !IsWhiteSpace(s[|s| - 1]) then 0 else TrailingSpace(s[..|s| - 1]) + 1
  }

  /** `s.trim()`: the infix of `s` left after cutting white space from both
      ends. It is empty exactly when `s` is all white space. */
  function Trim(s: string): (r: string)
    ensures r == [] <==> AllWhiteSpace(s)
    ensures r != [] ==> !IsWhiteSpace(r[0]) && !IsWhiteSpace(r[|r| - 1])
    ensures exists i :: 0 <= i && i + |r| <= |s| && r == s[i..i + |r|]
                        && AllWhiteSpace(s[..i]) && AllWhiteSpace(s[i + |r|..])
  {
    var a := LeadingSpace(s);
    if a == |s| then
      assert s[..0] == [] && s[0..0] == [];
      []
    else
      var b := |s| - TrailingSpace(s);
      SpaceEndsApart(s);
      assert !AllWhiteSpace(s) by { assert !IsWhiteSpace(s[a]); }
      assert s[a..b] == s[a..a + (b - a)];
      s[a..b]
  }

  /** When `s` is not all white space, its leading and trailing white space
      do not meet. */
  lemma SpaceEndsApart(s: string)
    requires LeadingSpace(s) < |s|
    ensures LeadingSpace(s) < |s| - TrailingSpace(s)
  {
    var t := TrailingSpace(s);
    forall k | |s| - t <= k < |s|
      ensures IsWhiteSpace(s[k])
    {
      assert s[k] == s[|s| - t..][k - (|s| - t)];
    }
  }

  /** The text key `category + '-' + name` under which the asset list
      groups entries. */
  function KeyString(category: string, name: string): (key: string)
    ensures |key| == |category| + 1 + |name| && key[|category|] == '-'
  {
    category + "-" + name
  }

  /** No listed category contains the separator '-'. */
  lemma CategoriesHaveNoDash(category: string)
    requires category in InvestmentCategories
    ensures '-' !in category
  {
  }

  /** For categories without '-', the text key identifies the
      (category, name) pair; names may contain '-' freely. */
  lemma {:induction false} KeyStringInjective(c1: string, n1: string, c2: string, n2: string)
    requires '-' !in c1 && '-' !in c2
    ensures KeyString(c1, n1) == KeyString(c2, n2) <==> c1 == c2 && n1 == n2
  {
    var k1, k2 := KeyString(c1, n1), KeyString(c2, n2);
    if k1 == k2 {
      if |c1| < |c2| {
        assert false;
      } else if |c2| < |c1| {
        assert false;
      } else {
        assert c1 == k1[..|c1|] == k2[..|c2|] == c2;
        assert n1 == k1[|c1| + 1..] == k2[|c2| + 1..] == n2;
      }
    }
  }
}
