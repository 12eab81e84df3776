// The symbol palette's categories and the bucketing of the symbol table
// into them, decoding each symbol's `U+XXXX` code point on the way.
module Categories {
  import opened Wrappers
  import opened Text

  datatype Category = Category(id: string, labelText: string)

  const CategoryIds: seq<string> := ["Greek", "Arrows", "Operators", "Relations", "Misc"]
  const CategoryKeys: seq<string> := ["category_greek", "category_arrows", "category_operators",
                                      "category_relations", "category_misc"]

  /** The label used when no translation is available: the English name,
      or the key itself for a key without one. */
  function FallbackLabel(key: string): string
  {
    if key == "category_greek" then "Greek"
    else if key == "category_arrows" then "Arrows"
    else if key == "category_operators" then "Operators"
    else if key == "category_relations" then "Relations"
    else if key == "category_misc" then "Misc"
    else key
  }

  /** Each category's fallback label is its id. */
  lemma FallbackLabelsAreIds()
    ensures forall i :: 0 <= i < 5 ==> FallbackLabel(CategoryKeys[i]) == CategoryIds[i]
  {
  }

  /** The translation succeeded for every category key. */
  predicate AllTranslated(f: string -> Option<string>)
  {
    forall i :: 0 <= i < 5 ==> f(CategoryKeys[i]).Some?
  }

  /** `createCategories`: the five categories in a fixed order, labelled
      by `t`. `t` is `None` when it is not a function; a key for which it
      answers `None` is one on which it throws, and then every label falls
      back. */
  function CreateCategories(t: Option<string -> Option<string>>): (r: seq<Category>)
    ensures |r| == 5 && forall i :: 0 <= i < 5 ==> r[i].id == CategoryIds[i]
    ensures t.Some? && AllTranslated(t.value) ==>
              forall i :: 0 <= i < 5 ==> r[i].labelText == t.value(CategoryKeys[i]).value
    ensures t.None? || !AllTranslated(t.value) ==>
              forall i :: 0 <= i < 5 ==> r[i].labelText == CategoryIds[i]
  {
    FallbackLabelsAreIds();
    if t.Some? && AllTranslated(t.value) then
      seq(5, i requires 0 <= i < 5 => Category(CategoryIds[i], t.value(CategoryKeys[i]).value))
    else
      seq(5, i requires 0 <= i < 5 => Category(CategoryIds[i], FallbackLabel(CategoryKeys[i])))
  }

  // ---------------------------------------------------------------------
  // `parseInt(s, 16)` and `String.fromCodePoint`
  // ---------------------------------------------------------------------

  const MaxCodePoint := 0x10FFFF

  predicate IsHexDigit(c: char)
  {
    '0' <= c <= '9' || 'a' <= c <= 'f' || 'A' <= c <= 'F'
  }

  function HexDigitValue(c: char): (v: nat)
    requires IsHexDigit(c)
    ensures v < 16
  {
    if '0' <= c <= '9' then c as int - '0' as int
    else if 'a' <= c <= 'f' then c as int - 'a' as int + 10
    else c as int - 'A' as int + 10
  }

  predicate AllHex(s: string)
  {
    forall i :: 0 <= i < |s| ==> IsHexDigit(s[i])
  }

  /** The length of the longest prefix of hex digits. */
  function HexPrefixLength(s: string): (n: nat)
    ensures n <= |s| && AllHex(s[..n])
    ensures n == |s| || !IsHexDigit(s[n])
  {
    if s == [] || !IsHexDigit(s[0]) then 0
    else
      var n := 1 + HexPrefixLength(s[1..]);
      assert forall i :: 1 <= i < n ==> s[..n][i] == s[1..][..n - 1][i - 1];
      n
  }

  /** The number the hex digits `ds` spell, most significant first. */
  function HexValue(ds: string): nat
    requires AllHex(ds)
  {
    if ds == [] then 0 else HexValue(ds[..|ds| - 1]) * 16 + HexDigitValue(ds[|ds| - 1])
  }

  /** `parseInt(s, 16)`: after leading white space, an optional sign and
      an optional `0x`, the longest run of hex digits; `None` for NaN. */
  function ParseHexInt(s: string): (r: Option<int>)
    ensures r.Some? <==> (var t := TrimStart(s);
                          var u := if |t| > 0 && (t[0] == '+' || t[0] == '-') then t[1..] else t;
                          var v := if |u| >= 2 && u[0] == '0' && (u[1] == 'x' || u[1] == 'X') then u[2..] else u;
                          |v| > 0 && IsHexDigit(v[0]))
  {
    var t := TrimStart(s);
    var negative := |t| > 0 && t[0] == '-';
    var u := if |t| > 0 && (t[0] == '+' || t[0] == '-') then t[1..] else t;
    var v := if |u| >= 2 && u[0] == '0' && (u[1] == 'x' || u[1] == 'X') then u[2..] else u;
    var n := HexPrefixLength(v);
    var magnitude: int := if n == 0 then 0 else HexValue(v[..n]);
    if n == 0 then None
    else Some(if negative then -magnitude else magnitude)
  }

  /** `s` with its leading `'0'`s removed. */
  function DropZeros(s: string): (r: string)
    ensures |r| <= |s| && r == s[|s| - |r|..]
    ensures r == [] || r[0] != '0'
  {
    if |s| > 0 && s[0] == '0' then DropZeros(s[1..]) else s
  }

  /** `codepoint.replace(/^U\+0*\/, '')`. */
  function StripCodepointPrefix(codepoint: string): string
  {
    if StartsWith(codepoint, "U+") then DropZeros(codepoint[2..]) else codepoint
  }

  /** The replacement only ever cuts a front: `U+` and every zero after
      it, leaving no leading zero; a code point without `U+` is kept. */
  lemma StripCodepointPrefixCutsFront(codepoint: string)
    ensures var r := StripCodepointPrefix(codepoint);
            && |r| <= |codepoint| && r == codepoint[|codepoint| - |r|..]
            && (StartsWith(codepoint, "U+") ==> |r| <= |codepoint| - 2 && (r == [] || r[0] != '0'))
            && (!StartsWith(codepoint, "U+") ==> r == codepoint)
  {
    if StartsWith(codepoint, "U+") {
      var r := DropZeros(codepoint[2..]);
      assert codepoint[2..][|codepoint| - 2 - |r|..] == codepoint[|codepoint| - |r|..];
    }
  }

  /** The code point a symbol's `codepoint` names, or `None` where
      `String.fromCodePoint` throws (no number, or out of range). */
  function DecodeCodepoint(codepoint: string): (r: Option<nat>)
    ensures r.Some? ==> r.value <= MaxCodePoint
  {
    match ParseHexInt(StripCodepointPrefix(codepoint))
    case None => None
    case Some(n) => if 0 <= n <= MaxCodePoint then Some(n) else None
  }

  // Formatting a code point the way the symbol table writes them, as a
  // partner of decoding.

  function HexDigit(d: nat): (c: char)
    requires d < 16
    ensures IsHexDigit(c) && HexDigitValue(c) == d
  {
    if d < 10 then ('0' as int + d) as char else ('A' as int + d - 10) as char
  }

  /** The upper-case hex digits of `n`, without leading zeros. */
  function ToHex(n: nat): (s: string)
    ensures |s| >= 1 && AllHex(s) && HexValue(s) == n
    ensures n > 0 ==> s[0] != '0'
  {
    if n < 16 then [HexDigit(n)]
    else
      var s := ToHex(n / 16) + [HexDigit(n % 16)];
      assert s[..|s| - 1] == ToHex(n / 16);
      s
  }

  function Zeros(k: nat): (s: string)
    ensures |s| == k && forall i :: 0 <= i < k ==> s[i] == '0'
  {
    if k == 0 then [] else Zeros(k - 1) + ['0']
  }

  /** `U+` and at least four hex digits, as in the symbol table. */
  function FormatCodepoint(n: nat): string
  {
    var digits := ToHex(n);
    "U+" + (if |digits| < 4 then Zeros(4 - |digits|) else []) + digits
  }

  lemma {:induction false} DropZerosOfPadding(k: nat, s: string)
    requires s == [] || s[0] != '0'
    ensures DropZeros(Zeros(k) + s) == s
  {
    if k > 0 {
      var t := Zeros(k - 1) + s;
      var u := ['0'] + t;
      assert Zeros(k) + s == u by {
        ZerosCons(k);
      }
      assert u[0] == '0' && u[1..] == t;
      assert DropZeros(u) == DropZeros(t);
      DropZerosOfPadding(k - 1, s);
    }
  }

  lemma ZerosCons(k: nat)
    requires k > 0
    ensures Zeros(k) == ['0'] + Zeros(k - 1)
  {
  }

  /** Stripping the prefix of a formatted code point leaves its digits. */
  lemma StripFormat(n: nat)
    requires n > 0
    ensures StripCodepointPrefix(FormatCodepoint(n)) == ToHex(n)
  {
    var digits := ToHex(n);
    var padding := if |digits| < 4 then Zeros(4 - |digits|) else [];
    var f := FormatCodepoint(n);
    assert f == "U+" + (padding + digits);
    assert f[..2] == "U+";
    assert StripCodepointPrefix(f) == DropZeros(f[2..]);
    assert f[2..] == padding + digits;
    assert padding == Zeros(|padding|);
    DropZerosOfPadding(|padding|, digits);
  }

  /** Hex digits not starting with `0` parse to their value. */
  lemma ParseDigits(ds: string)
    requires |ds| > 0 && AllHex(ds) && ds[0] != '0'
    ensures ParseHexInt(ds) == Some(HexValue(ds))
  {
    assert !IsWhiteSpace(ds[0]);
    assert TrimStart(ds) == ds;
    assert HexPrefixLength(ds) == |ds|;
    assert ds[..|ds|] == ds;
  }

  /** Every code point but 0 decodes back from its table form. */
  lemma DecodeFormat(n: nat)
    requires 0 < n <= MaxCodePoint
    ensures DecodeCodepoint(FormatCodepoint(n)) == Some(n)
  {
    StripFormat(n);
    ParseDigits(ToHex(n));
  }

  /** The null character is lost: all its digits are zeros, which the
      prefix pattern strips, leaving nothing to parse. */
  lemma NullCodepointFails()
    ensures DecodeCodepoint("U+0000") == None
  {
    assert StartsWith("U+0000", "U+");
    assert "U+0000"[2..] == "0000";
    assert DropZeros("0000") == [];
  }

  // ---------------------------------------------------------------------
  // `buildCategorisedSymbols`
  // ---------------------------------------------------------------------

  /** An entry of the symbol table. The loader fills in `character`. */
  class SymbolItem {
    const codepoint: string
    const category: string
    var character: Option<nat>

    constructor (point: string, categoryId: string)
      ensures codepoint == point && category == categoryId && character.None?
    {
      codepoint := point;
      category := categoryId;
      character := None;
    }
  }

  /** The ids of the categories with a non-empty id. */
  function IdsOf(categories: seq<Category>): (ids: set<string>)
    ensures forall id :: id in ids <==> exists c :: c in categories && c.id != "" && c.id == id
  {
    set c | c in categories && c.id != "" :: c.id
  }

  predicate Decodes(item: SymbolItem)
  {
    DecodeCodepoint(item.codepoint).Some?
  }

  /** The symbols of category `id` whose code point decodes, in table
      order. */
  function Bucket(symbols: seq<SymbolItem>, id: string): (r: seq<SymbolItem>)
    ensures |r| <= |symbols|
  {
    if symbols == [] then []
    else
      var last := symbols[|symbols| - 1];
      Bucket(symbols[..|symbols| - 1], id) + (if last.category == id && Decodes(last) then [last] else [])
  }

  /** A bucket holds exactly the table's symbols of its category whose
      code point decodes. */
  lemma {:induction false} BucketMembers(symbols: seq<SymbolItem>, id: string)
    ensures forall k :: 0 <= k < |Bucket(symbols, id)| ==>
              var s := Bucket(symbols, id)[k]; s in symbols && s.category == id && Decodes(s)
    ensures forall k :: 0 <= k < |symbols| && symbols[k].category == id && Decodes(symbols[k]) ==>
              symbols[k] in Bucket(symbols, id)
  {
    if symbols != [] {
      var init := symbols[..|symbols| - 1];
      BucketMembers(init, id);
      assert symbols == init + [symbols[|symbols| - 1]];
      forall k | 0 <= k < |symbols| && symbols[k].category == id && Decodes(symbols[k])
        ensures symbols[k] in Bucket(symbols, id)
      {
        if k < |init| {
          assert symbols[k] == init[k];
        }
      }
    }
  }

  /** The first loop of `buildCategorisedSymbols`: an empty bucket for
      every category with an id. */
  method EmptyBuckets(cats: seq<Category>) returns (output: map<string, seq<SymbolItem>>)
    ensures output.Keys == IdsOf(cats)
    ensures forall id :: id in output ==> output[id] == []
  {
    output := map[];
    var i := 0;
    while i < |cats|
      invariant 0 <= i <= |cats|
      invariant output.Keys == IdsOf(cats[..i])
      invariant forall id :: id in output ==> output[id] == []
    {
      assert cats[..i + 1] == cats[..i] + [cats[i]];
      if cats[i].id != "" {
        output := output[cats[i].id := []];
      }
      i := i + 1;
    }
    assert cats[..i] == cats;
  }

  /** The second loop: each symbol of a known category whose code point
      decodes gets its character and joins its bucket. */
  method FillBuckets(buckets: map<string, seq<SymbolItem>>, symbols: seq<SymbolItem>)
    returns (output: map<string, seq<SymbolItem>>)
    requires "" !in buckets && forall id :: id in buckets ==> buckets[id] == []
    modifies symbols
    ensures output.Keys == buckets.Keys
    ensures forall id :: id in output ==> output[id] == Bucket(symbols, id)
    ensures forall s :: s in symbols ==>
              s.character == if s.category in buckets && Decodes(s) then DecodeCodepoint(s.codepoint)
                             else old(s.character)
  {
    output := buckets;
    var j := 0;
    while j < |symbols|
      invariant 0 <= j <= |symbols|
      invariant output.Keys == buckets.Keys
      invariant forall id :: id in output ==> output[id] == Bucket(symbols[..j], id)
      invariant forall s :: s in symbols ==>
                  s.character == if s in symbols[..j] && s.category in buckets && Decodes(s)
                                 then DecodeCodepoint(s.codepoint) else old(s.character)
    {
      var item := symbols[j];
      assert symbols[..j + 1] == symbols[..j] + [item];
      label Step:
      output := Place(output, item);
      forall id | id in output
        ensures output[id] == Bucket(symbols[..j + 1], id)
      {
        BucketSnoc(symbols[..j], item, id);
      }
      forall s | s in symbols
        ensures s.character == if s in symbols[..j + 1] && s.category in buckets && Decodes(s)
                               then DecodeCodepoint(s.codepoint) else old(s.character)
      {
        if s != item {
          assert s.character == old@Step(s.character);
          assert s in symbols[..j + 1] <==> s in symbols[..j];
        }
      }
      j := j + 1;
    }
    assert symbols[..j] == symbols;
  }

  lemma BucketSnoc(symbols: seq<SymbolItem>, item: SymbolItem, id: string)
    ensures Bucket(symbols + [item], id)
            == Bucket(symbols, id) + (if item.category == id && Decodes(item) then [item] else [])
  {
    assert (symbols + [item])[..|symbols|] == symbols;
  }

  /** One step of the second loop: a symbol of a known category whose
      code point decodes gets its character and joins its bucket. */
  method Place(output: map<string, seq<SymbolItem>>, item: SymbolItem)
    returns (next: map<string, seq<SymbolItem>>)
    modifies item
    ensures var placed := item.category != "" && item.category in output && Decodes(item);
            && next == (if placed then output[item.category := output[item.category] + [item]] else output)
            && item.character == (if placed then DecodeCodepoint(item.codepoint) else old(item.character))
  {
    var key := item.category;
    var decoded := DecodeCodepoint(item.codepoint);
    next := output;
    if key != "" && key in output && decoded.Some? {
      item.character := decoded;
      next := output[key := output[key] + [item]];
    }
  }

  /** `buildCategorisedSymbols`: one bucket per category id, holding the
      category's symbols in table order; each symbol put in a bucket gets
      its decoded character. Without categories the result is empty. */
  method BuildCategorisedSymbols(categories: Option<seq<Category>>, symbols: seq<SymbolItem>)
    returns (output: map<string, seq<SymbolItem>>)
    modifies symbols
    ensures categories.None? || categories.value == [] ==> output == map[]
    ensures categories.Some? && categories.value != [] ==>
              output.Keys == IdsOf(categories.value)
              && forall id :: id in output ==> output[id] == Bucket(symbols, id)
    ensures forall s :: s in symbols ==>
              s.character == if categories.Some? && s.category in IdsOf(categories.value) && Decodes(s)
                             then DecodeCodepoint(s.codepoint) else old(s.character)
  {
    if categories.None? || categories.value == [] {
      return map[];
    }
    var buckets := EmptyBuckets(categories.value);
    output := FillBuckets(buckets, symbols);
  }

  /** The buckets built from the created categories are exactly the five
      fixed ids. */
  lemma CreatedCategoriesKeys(t: Option<string -> Option<string>>)
    ensures IdsOf(CreateCategories(t)) == set i | 0 <= i < 5 :: CategoryIds[i]
  {
    var cats := CreateCategories(t);
    forall id | id in set i | 0 <= i < 5 :: CategoryIds[i]
      ensures id in IdsOf(cats)
    {
      var i :| 0 <= i < 5 && CategoryIds[i] == id;
      assert cats[i] in cats;
    }
  }
}
