/** The cake studio's price rule and the name given to a customer's
    reference photo (CakeApp/app.py). Weights are exact reals: the order
    form offers 0.5 kg steps, which a real represents without rounding. */
module CakePricing {
  import Text

  /** Price per kilogram of each flavour on the menu. */
  const Prices: map<string, int> := map[
    "Vanilla Dream" := 400,
    "Rich Chocolate" := 500,
    "Red Velvet" := 600,
    "Butterscotch" := 450,
    "Fresh Fruit" := 550
  ]
  /** Rate charged for a flavour that is not on the menu. */
  const DefaultRate: int := 400

  /** Surcharge per shape. */
  const ShapePremium: map<string, int> := map["Round" := 0, "Square" := 50, "Heart" := 100]
  const DefaultPremium: int := 0

  /** Price of each add-on. */
  const ToppingPrice: int := 50

  /** `table.get(key, default)`. */
  function Get(table: map<string, int>, key: string, default: int): int {
    if key in table then table[key] else default
  }

  /** Per-kilogram rate of a flavour: between the cheapest (400) and the
      dearest (600) menu price, 400 for an unknown flavour. */
  function FlavorRate(flavor: string): (r: int)
    ensures 400 <= r <= 600
    ensures flavor !in Prices ==> r == DefaultRate
    ensures flavor in Prices ==> r == Prices[flavor]
  {
    Get(Prices, flavor, DefaultRate)
  }

  /** Surcharge of a shape: between 0 and 100, 0 for an unknown shape. */
  function ShapeCost(shape: string): (r: int)
    ensures 0 <= r <= 100
    ensures shape !in ShapePremium ==> r == DefaultPremium
    ensures shape in ShapePremium ==> r == ShapePremium[shape]
  {
    Get(ShapePremium, shape, DefaultPremium)
  }

  /** `calculate_cake_price(flavor, weight, shape, toppings)`: rate times
      weight, plus the shape surcharge, plus 50 per add-on. For a
      non-negative weight it therefore lies between the cheapest and the
      dearest way of making a cake of that weight with that many add-ons. */
  function CalculateCakePrice(flavor: string, weight: real, shape: string, toppings: seq<string>): (r: real)
    ensures weight >= 0.0 ==> 400.0 * weight + (50 * |toppings|) as real <= r
    ensures weight >= 0.0 ==> r <= 600.0 * weight + 100.0 + (50 * |toppings|) as real
  {
    FlavorRate(flavor) as real * weight + ShapeCost(shape) as real + (|toppings| * ToppingPrice) as real
  }

  /** Each add-on raises the price by exactly 50, whatever it is. */
  lemma AddingToppingAddsFifty(flavor: string, weight: real, shape: string, toppings: seq<string>, extra: string)
    ensures CalculateCakePrice(flavor, weight, shape, toppings + [extra])
         == CalculateCakePrice(flavor, weight, shape, toppings) + 50.0
  {
  }

  /** Only the number of add-ons matters, not which ones or in what order. */
  lemma ToppingsCountOnly(flavor: string, weight: real, shape: string, t1: seq<string>, t2: seq<string>)
    requires |t1| == |t2|
    ensures CalculateCakePrice(flavor, weight, shape, t1) == CalculateCakePrice(flavor, weight, shape, t2)
  {
  }

  /** An unknown flavour or shape is priced like Vanilla Dream or a round
      cake respectively. */
  lemma UnknownChoicesFallBack(flavor: string, weight: real, shape: string, toppings: seq<string>)
    requires flavor !in Prices && shape !in ShapePremium
    ensures CalculateCakePrice(flavor, weight, shape, toppings)
         == CalculateCakePrice("Vanilla Dream", weight, "Round", toppings)
  {
  }

  /** A heavier cake of the same design never costs less. */
  lemma HeavierCostsMore(flavor: string, w1: real, w2: real, shape: string, toppings: seq<string>)
    requires 0.0 <= w1 <= w2
    ensures CalculateCakePrice(flavor, w1, shape, toppings) <= CalculateCakePrice(flavor, w2, shape, toppings)
  {
    var rate := FlavorRate(flavor) as real;
    assert rate * w1 <= rate * w2;
  }

  // ---------------------------------------------------------------------
  // auto_rename_file
  // ---------------------------------------------------------------------

  /** Index of the last occurrence of `c` in `s`, or -1 (`str.rfind`). */
  function LastIndexOf(s: string, c: char): (k: int)
    ensures -1 <= k < |s|
    ensures k >= 0 ==> s[k] == c
    ensures forall i :: k < i < |s| ==> s[i] != c
  {
    if s == [] then -1
    else if s[|s| - 1] == c then |s| - 1
    else LastIndexOf(s[..|s| - 1], c)
  }

  /** `os.path.splitext` for POSIX paths: splits off the text from the last
      dot of the last path component, unless that component has nothing but
      dots before it (a hidden file has no extension). Root and extension
      together give back the path; a non-empty extension is a dot followed
      by neither dots nor slashes. */
  function SplitExt(p: string): (r: (string, string))
    ensures r.0 + r.1 == p
    ensures r.1 == [] || r.1[0] == '.'
    ensures forall i :: 1 <= i < |r.1| ==> r.1[i] != '.' && r.1[i] != '/'
  {
    var sep := LastIndexOf(p, '/');
    var dot := LastIndexOf(p, '.');
    if dot > sep && exists k :: sep < k < dot && p[k] != '.' then
      (p[..dot], p[dot..])
    else
      (p, [])
  }

  /** A path has an extension exactly when its last component holds a dot
      somewhere after a character that is not a dot. */
  lemma SplitExtFindsExtension(p: string)
    ensures SplitExt(p).1 != [] <==>
      exists k, j :: LastIndexOf(p, '/') < k < j < |p| && p[k] != '.' && p[j] == '.'
  {
    var sep := LastIndexOf(p, '/');
    var dot := LastIndexOf(p, '.');
    if exists k, j :: sep < k < j < |p| && p[k] != '.' && p[j] == '.' {
      var k, j :| sep < k < j < |p| && p[k] != '.' && p[j] == '.';
      assert dot >= j;
    }
  }

  function Ext(fileName: string): string {
    SplitExt(fileName).1
  }

  /** `auto_rename_file(uploaded_file, order_id, customer_name)`: the
      letters and digits of the customer's name and the order id, behind a
      fixed prefix, with the upload's extension. The new name keeps the
      upload's extension and starts with the prefix. */
  function AutoRenameFile(fileName: string, orderId: int, customerName: string): (r: string)
    ensures |r| >= 5 && r[..5] == "CAKE_"
    ensures Ext(r) == Ext(fileName)
  {
    var stem := "CAKE_" + Text.KeepAlnum(customerName) + "_" + Text.IntToString(orderId);
    StemHasNoDotOrSlash(customerName, orderId);
    ExtOfStemPlusExt(stem, Ext(fileName));
    stem + Ext(fileName)
  }

  /** The part of a new name before the extension has no dot and no slash. */
  lemma StemHasNoDotOrSlash(customerName: string, orderId: int)
    ensures var stem := "CAKE_" + Text.KeepAlnum(customerName) + "_" + Text.IntToString(orderId);
            |stem| > 0 && stem[0] == 'C' &&
            forall i :: 0 <= i < |stem| ==> stem[i] != '.' && stem[i] != '/'
  {
    var clean := Text.KeepAlnum(customerName);
    var id := Text.IntToString(orderId);
    var stem := "CAKE_" + clean + "_" + id;
    forall i | 0 <= i < |stem|
      ensures stem[i] != '.' && stem[i] != '/'
    {
      if i < 5 {
      } else if i < 5 + |clean| {
        assert stem[i] == clean[i - 5];
      } else if i == 5 + |clean| {
      } else {
        assert stem[i] == id[i - 6 - |clean|];
      }
    }
  }

  /** Appending an extension to a dot-free, slash-free stem that starts
      with a non-dot character makes that extension the path's extension. */
  lemma ExtOfStemPlusExt(stem: string, ext: string)
    requires |stem| > 0 && stem[0] != '.'
    requires forall i :: 0 <= i < |stem| ==> stem[i] != '.' && stem[i] != '/'
    requires ext == [] || ext[0] == '.'
    requires forall i :: 1 <= i < |ext| ==> ext[i] != '.' && ext[i] != '/'
    ensures SplitExt(stem + ext).1 == ext
  {
    var p := stem + ext;
    var sep := LastIndexOf(p, '/');
    var dot := LastIndexOf(p, '.');
    assert forall i :: 0 <= i < |p| ==> p[i] != '/' by {
      forall i | 0 <= i < |p| ensures p[i] != '/' {
        if i >= |stem| { assert p[i] == ext[i - |stem|]; }
      }
    }
    assert sep == -1;
    if ext == [] {
      assert p == stem;
      assert dot == -1;
    } else {
      assert p[|stem|] == '.';
      forall i | |stem| < i < |p| ensures p[i] != '.' {
        assert p[i] == ext[i - |stem|];
      }
      assert dot == |stem|;
      assert p[0] != '.';
      assert p[dot..] == ext;
    }
  }

  /** Photos of different orders never get the same name, and the name
      determines the cleaned customer name and the extension as well. */
  lemma {:induction false} RenamedFilesIdentifyOrder(f1: string, id1: int, n1: string, f2: string, id2: int, n2: string)
    requires AutoRenameFile(f1, id1, n1) == AutoRenameFile(f2, id2, n2)
    ensures id1 == id2
    ensures Text.KeepAlnum(n1) == Text.KeepAlnum(n2)
    ensures Ext(f1) == Ext(f2)
  {
    var c1, c2 := Text.KeepAlnum(n1), Text.KeepAlnum(n2);
    var d1, d2 := Text.IntToString(id1), Text.IntToString(id2);
    var stem1 := "CAKE_" + c1 + "_" + d1;
    var stem2 := "CAKE_" + c2 + "_" + d2;
    assert stem1 + Ext(f1) == stem2 + Ext(f2);
    CancelSuffix(stem1, stem2, Ext(f1));
    DropPrefix("CAKE_", c1, d1);
    DropPrefix("CAKE_", c2, d2);
    SplitAtFirstUnderscore(c1, d1, c2, d2);
    Text.IntToStringInjective(id1, id2);
  }

  lemma CancelSuffix(a: string, b: string, e: string)
    requires a + e == b + e
    ensures a == b
  {
    assert a == (a + e)[..|a|];
    assert b == (b + e)[..|b|];
  }

  lemma DropPrefix(p: string, c: string, d: string)
    ensures (p + c + "_" + d)[|p|..] == c + "_" + d
  {
  }

  /** The first index at or after `i` where `p` fails, or the length of `s`. */
  function ScanWhile(s: string, i: nat, p: char -> bool): (j: nat)
    requires i <= |s|
    ensures i <= j <= |s|
    ensures forall m :: i <= m < j ==> p(s[m])
    ensures j < |s| ==> !p(s[j])
    decreases |s| - i
  {
    if i == |s| || !p(s[i]) then i else ScanWhile(s, i + 1, p)
  }

  /** Scanning `a + x` stops exactly at the end of `a` when every character
      of `a` from `i` on passes and `x` starts with one that fails. */
  lemma ScanStopsAtBoundary(a: string, x: string, i: nat, p: char -> bool)
    requires i <= |a|
    requires forall m :: i <= m < |a| ==> p(a[m])
    requires x == [] || !p(x[0])
    ensures ScanWhile(a + x, i, p) == |a|
  {
    var s := a + x;
    var j := ScanWhile(s, i, p);
    assert forall m :: i <= m < |a| ==> p(s[m]);
    if |a| < |s| {
      assert s[|a|] == x[0];
    }
  }

  predicate NotUnderscore(c: char) {
    c != '_'
  }

  /** A string without underscores followed by an underscore is determined
      by the whole. */
  lemma SplitAtFirstUnderscore(a1: string, x1: string, a2: string, x2: string)
    requires forall i :: 0 <= i < |a1| ==> a1[i] != '_'
    requires forall i :: 0 <= i < |a2| ==> a2[i] != '_'
    requires a1 + "_" + x1 == a2 + "_" + x2
    ensures a1 == a2 && x1 == x2
  {
    var s := a1 + "_" + x1;
    assert s == a1 + ("_" + x1);
    assert s == a2 + ("_" + x2);
    ScanStopsAtBoundary(a1, "_" + x1, 0, NotUnderscore);
    ScanStopsAtBoundary(a2, "_" + x2, 0, NotUnderscore);
    assert a1 == s[..|a1|] == a2;
    assert x1 == s[|a1| + 1..] == x2;
  }
}
