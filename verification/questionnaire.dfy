/**
 * The Big Five (OCEAN) questionnaire: the five dimensions, the fixed
 * catalog of fifty Likert items and the reverse keying of the negatively
 * worded items.
 *
 * The item texts are presentation data and are not modelled; an item is
 * its dimension, its key ("O1" .. "N10") and whether it is reverse-keyed.
 */
module Questionnaire {

  /** The five dimensions, named as in the application. */
  datatype Dim = Apertura | Responsabilidad | Extraversion | Amabilidad | Estabilidad

  /** The dimensions in the order the application lists them. */
  const DimList: seq<Dim> := [Apertura, Responsabilidad, Extraversion, Amabilidad, Estabilidad]

  /** DimList lists every dimension. */
  lemma AllDimsListed()
    ensures forall d :: d in DimList
  {
    forall d: Dim ensures d in DimList {
      assert DimList[DimIndex(d)] == d;
    }
  }

  /** The position of a dimension in DimList. */
  function DimIndex(d: Dim): (k: nat)
    ensures k < |DimList| && DimList[k] == d
  {
    match d
    case Apertura => 0
    case Responsabilidad => 1
    case Extraversion => 2
    case Amabilidad => 3
    case Estabilidad => 4
  }

  /** The one-letter display code of a dimension, also the prefix of its item keys. */
  function Code(d: Dim): char {
    match d
    case Apertura => 'O'
    case Responsabilidad => 'C'
    case Extraversion => 'E'
    case Amabilidad => 'A'
    case Estabilidad => 'N'
  }

  /** One questionnaire item. */
  datatype Item = Item(dim: Dim, key: string, rev: bool)

  /** The decimal numeral of an item number 1 .. 10. */
  function Numeral(n: int): (s: string)
    requires 1 <= n <= 10
    ensures 1 <= |s| <= 2
    ensures forall c :: c in s ==> '0' <= c <= '9'
  {
    if n < 10 then [(48 + n) as char] else "10"
  }

  /**
   * The j-th item (0-based) of dimension d: key code + (j + 1); the first
   * five items of every dimension are direct-keyed, the last five reversed.
   */
  function Question(d: Dim, j: int): Item
    requires 0 <= j < 10
  {
    Item(d, [Code(d)] + Numeral(j + 1), j >= 5)
  }

  /** The ten items of one dimension, in catalog order. */
  function Block(d: Dim): seq<Item> {
    seq(10, j requires 0 <= j < 10 => Question(d, j))
  }

  /** The catalog: the ten items of each dimension in turn, in dimension order. */
  const Catalog: seq<Item> := CatalogItems()

  /** Item i of the catalog is item i % 10 of dimension i / 10. */
  function CatalogItems(): seq<Item> {
    seq(50, i requires 0 <= i < 50 => Question(DimList[i / 10], i % 10))
  }

  /** The keys of all catalog items. */
  function CatalogKeys(): set<string> {
    set q | q in Catalog :: q.key
  }

  /** Reverse keying on the 1..5 Likert scale. */
  function ReverseScore(v: int): (r: int)
    ensures 1 <= v <= 5 <==> 1 <= r <= 5
  {
    6 - v
  }

  /** The items of `items` that belong to dimension d, in order. */
  function ItemsOf(items: seq<Item>, d: Dim): (r: seq<Item>)
    ensures |r| <= |items|
  {
    if items == [] then []
    else ItemsOf(items[..|items| - 1], d) + (if items[|items| - 1].dim == d then [items[|items| - 1]] else [])
  }

  // ---------------------------------------------------------------------
  // Reverse keying

  /** Reversing is an involution and pairs every answer with its mirror around 3. */
  lemma ReverseScoreInvolution(v: int)
    ensures ReverseScore(ReverseScore(v)) == v
    ensures v + ReverseScore(v) == 6
  {
  }

  /** Reversing maps the Likert scale onto itself: 1<->5, 2<->4, 3 fixed. */
  lemma ReverseScoreOnLikert(v: int)
    ensures 1 <= v <= 5 <==> 1 <= ReverseScore(v) <= 5
    ensures 1 <= v <= 5 ==> exists u :: 1 <= u <= 5 && ReverseScore(u) == v
    ensures ReverseScore(1) == 5 && ReverseScore(2) == 4 && ReverseScore(3) == 3
    ensures ReverseScore(4) == 2 && ReverseScore(5) == 1
  {
    if 1 <= v <= 5 {
      assert ReverseScore(6 - v) == v;
    }
  }

  // ---------------------------------------------------------------------
  // Structure of the catalog

  lemma {:induction false} ItemsOfAppend(x: seq<Item>, y: seq<Item>, d: Dim)
    ensures ItemsOf(x + y, d) == ItemsOf(x, d) + ItemsOf(y, d)
    decreases |y|
  {
    if y == [] {
      assert x + y == x;
    } else {
      var n := |y| - 1;
      assert (x + y)[..|x + y| - 1] == x + y[..n];
      ItemsOfAppend(x, y[..n], d);
    }
  }

  lemma {:induction false} ItemsOfAll(items: seq<Item>, d: Dim)
    requires forall i :: 0 <= i < |items| ==> items[i].dim == d
    ensures ItemsOf(items, d) == items
  {
    if items != [] {
      var n := |items| - 1;
      ItemsOfAll(items[..n], d);
      assert items[..n] + [items[n]] == items;
    }
  }

  lemma {:induction false} ItemsOfNone(items: seq<Item>, d: Dim)
    requires forall i :: 0 <= i < |items| ==> items[i].dim != d
    ensures ItemsOf(items, d) == []
  {
    if items != [] {
      ItemsOfNone(items[..|items| - 1], d);
    }
  }

  lemma ItemsOfOwnBlock(d: Dim)
    ensures ItemsOf(Block(d), d) == Block(d)
  {
    ItemsOfAll(Block(d), d);
  }

  lemma ItemsOfOtherBlock(b: Dim, d: Dim)
    requires b != d
    ensures ItemsOf(Block(b), d) == []
  {
    ItemsOfNone(Block(b), d);
  }

  /** Positions 10m .. 10m+9 of the catalog hold the block of the m-th dimension. */
  lemma CatalogSlice(m: int)
    requires 0 <= m < 5
    ensures Catalog[10 * m..10 * m + 10] == Block(DimList[m])
  {
    forall j | 0 <= j < 10 ensures Catalog[10 * m..10 * m + 10][j] == Block(DimList[m])[j] {
      assert (10 * m + j) / 10 == m && (10 * m + j) % 10 == j;
    }
  }

  /** The catalog is laid out block by block in dimension order. */
  lemma CatalogBlocks()
    ensures forall k :: 0 <= k < 5 ==> Catalog[10 * k..10 * k + 10] == Block(DimList[k])
  {
    forall k | 0 <= k < 5 ensures Catalog[10 * k..10 * k + 10] == Block(DimList[k]) {
      CatalogSlice(k);
    }
  }

  /** DimIndex inverts DimList. */
  lemma DimIndexOfListed(k: int)
    requires 0 <= k < 5
    ensures DimIndex(DimList[k]) == k
  {
  }

  /** Appending the block of dimension b to items already selected for d. */
  lemma ItemsOfAddBlock(pre: seq<Item>, b: Dim, d: Dim, found: bool)
    requires ItemsOf(pre, d) == if found then Block(d) else []
    requires found ==> b != d
    ensures ItemsOf(pre + Block(b), d) == if found || b == d then Block(d) else []
  {
    ItemsOfAppend(pre, Block(b), d);
    if b == d {
      ItemsOfOwnBlock(d);
    } else {
      ItemsOfOtherBlock(b, d);
    }
  }

  /**
   * The items of dimension d among the first m blocks of a sequence laid out
   * block by block in dimension order.
   */
  lemma {:induction false} ItemsOfBlockPrefix(s: seq<Item>, m: int, d: Dim)
    requires 0 <= m <= 5 && 10 * m <= |s|
    requires forall k :: 0 <= k < m ==> s[10 * k..10 * k + 10] == Block(DimList[k])
    ensures ItemsOf(s[..10 * m], d) == if DimIndex(d) < m then Block(d) else []
  {
    if m > 0 {
      var b, pre := DimList[m - 1], s[..10 * (m - 1)];
      assert s[..10 * m] == pre + Block(b) by {
        assert s[..10 * m] == pre + s[10 * (m - 1)..10 * m];
      }
      ItemsOfBlockPrefix(s, m - 1, d);
      DimIndexOfListed(m - 1);
      ItemsOfAddBlock(pre, b, d, DimIndex(d) < m - 1);
    }
  }

  /**
   * Every dimension owns exactly its block of ten catalog items, in order:
   * five direct-keyed items followed by five reverse-keyed ones.
   */
  lemma CatalogByDimension(d: Dim)
    ensures |Catalog| == 50
    ensures ItemsOf(Catalog, d) == Block(d)
    ensures |Block(d)| == 10
    ensures forall j :: 0 <= j < 10 ==> Block(d)[j].dim == d && (Block(d)[j].rev <==> j >= 5)
  {
    CatalogBlocks();
    ItemsOfBlockPrefix(Catalog, 5, d);
    assert Catalog[..50] == Catalog;
  }

  /** Every item of a block is a catalog item. */
  lemma BlockInCatalog(d: Dim, j: int)
    requires 0 <= j < 10
    ensures Block(d)[j] in Catalog
  {
    var i := 10 * DimIndex(d) + j;
    assert Catalog[i] == Block(d)[j];
  }

  /** The catalog item at position i is item i % 10 of dimension DimList[i / 10]. */
  lemma CatalogAt(i: int)
    requires 0 <= i < |Catalog|
    ensures Catalog[i] == Block(DimList[i / 10])[i % 10]
  {
  }

  /** Two items share a key only when they are the same item of the same dimension. */
  lemma QuestionKeyInjective(d: Dim, j: int, d': Dim, j': int)
    requires 0 <= j < 10 && 0 <= j' < 10
    ensures Question(d, j).key == Question(d', j').key ==> d == d' && j == j'
  {
    var k, k' := Question(d, j).key, Question(d', j').key;
    assert k[0] == Code(d) && k'[0] == Code(d');
    assert k[1..] == Numeral(j + 1) && k'[1..] == Numeral(j' + 1);
  }

  /** Every catalog key is unique. */
  lemma CatalogKeysUnique()
    ensures forall i, i' :: 0 <= i < i' < |Catalog| ==> Catalog[i].key != Catalog[i'].key
  {
    forall i, i' | 0 <= i < i' < |Catalog|
      ensures Catalog[i].key != Catalog[i'].key
    {
      CatalogAt(i);
      CatalogAt(i');
      QuestionKeyInjective(DimList[i / 10], i % 10, DimList[i' / 10], i' % 10);
    }
  }

  /** The item carrying a catalog key: the same dimension and keying wherever the key is used. */
  lemma BlockKeyOwner(d: Dim, j: int, q: Item)
    requires 0 <= j < 10
    requires q in Catalog && q.key == Block(d)[j].key
    ensures q == Block(d)[j]
  {
    var i :| 0 <= i < |Catalog| && Catalog[i] == q;
    CatalogAt(i);
    QuestionKeyInjective(DimList[i / 10], i % 10, d, j);
  }
}
