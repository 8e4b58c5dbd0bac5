/** Ticker normalisation in `fetch_data`: the user's comma-separated input
    becomes one exchange symbol per field, each field stripped of
    surrounding white space, upper-cased and suffixed with ".NS". */
module Tickers {

  /** The characters Python's `str.strip()` removes (those for which
      `str.isspace()` holds). */
  predicate IsSpace(c: char)
  {
    var n := c as int;
    (9 <= n <= 13) || (28 <= n <= 32) || n == 0x85 || n == 0xA0 || n == 0x1680 ||
    (0x2000 <= n <= 0x200A) || n == 0x2028 || n == 0x2029 || n == 0x202F ||
    n == 0x205F || n == 0x3000
  }

  // ------------------------------------------------------------------- split

  /** Number of occurrences of `c` in `s`. */
  function Count(s: string, c: char): nat
  {
    if s == [] then 0 else (if s[0] == c then 1 else 0) + Count(s[1..], c)
  }

  /** `s.split(',')`: the maximal comma-free pieces between commas, empty
      pieces included; there is always at least one. */
  function Split(s: string): (fields: seq<string>)
    ensures |fields| == Count(s, ',') + 1
    ensures forall k :: 0 <= k < |fields| ==> ',' !in fields[k]
  {
    if s == [] then [[]]
    else
      var rest := Split(s[1..]);
      if s[0] == ',' then [[]] + rest
      else
        assert forall k :: 1 <= k < |rest| ==> rest[1..][k - 1] == rest[k];
        [[s[0]] + rest[0]] + rest[1..]
  }

  /** `','.join(fields)`. */
  function Join(fields: seq<string>): string
    requires |fields| > 0
  {
    if |fields| == 1 then fields[0] else fields[0] + [','] + Join(fields[1..])
  }

  /** Joining the pieces with commas gives back the input. */
  lemma {:induction false} JoinSplit(s: string)
    ensures Join(Split(s)) == s
  {
    if s != [] {
      JoinSplit(s[1..]);
      var rest := Split(s[1..]);
      if s[0] != ',' {
        if |rest| == 1 {
          assert Split(s) == [[s[0]] + rest[0]];
        } else {
          assert Split(s) == [[s[0]] + rest[0]] + rest[1..];
          assert Join(Split(s)) == [s[0]] + rest[0] + [','] + Join(rest[1..]);
          assert Join(rest) == rest[0] + [','] + Join(rest[1..]);
        }
      }
    }
  }

  /** Splitting comma-free pieces joined with commas gives back the pieces. */
  lemma {:induction false} SplitJoin(fields: seq<string>)
    requires |fields| > 0
    requires forall k :: 0 <= k < |fields| ==> ',' !in fields[k]
    ensures Split(Join(fields)) == fields
  {
    if |fields| == 1 {
      SplitCommaFree(fields[0]);
    } else {
      SplitJoin(fields[1..]);
      SplitPrefix(fields[0], Join(fields[1..]));
    }
  }

  /** A comma-free string is a single piece. */
  lemma {:induction false} SplitCommaFree(s: string)
    requires ',' !in s
    ensures Split(s) == [s]
  {
    if s != [] {
      assert ',' !in s[1..];
      SplitCommaFree(s[1..]);
      assert s == [s[0]] + s[1..];
    }
  }

  /** A comma-free piece followed by a comma and the rest splits into that
      piece followed by the pieces of the rest. */
  lemma {:induction false} SplitPrefix(a: string, b: string)
    requires ',' !in a
    ensures Split(a + [','] + b) == [a] + Split(b)
  {
    if a == [] {
      assert a + [','] + b == [','] + b;
      assert ([','] + b)[1..] == b;
    } else {
      assert (a + [','] + b)[1..] == a[1..] + [','] + b;
      SplitPrefix(a[1..], b);
      assert a == [a[0]] + a[1..];
    }
  }

  // ------------------------------------------------------------------- strip

  /** `s.lstrip()`: the suffix left after dropping leading white space. */
  function StripLeft(s: string): (r: string)
    ensures |r| <= |s| && r == s[|s| - |r|..]
    ensures forall i :: 0 <= i < |s| - |r| ==> IsSpace(s[i])
    ensures r == [] || !IsSpace(r[0])
  {
    if s != [] && IsSpace(s[0]) then StripLeft(s[1..]) else s
  }

  /** `s.rstrip()`: the prefix left after dropping trailing white space. */
  function StripRight(s: string): (r: string)
    ensures |r| <= |s| && r == s[..|r|]
    ensures forall i :: |r| <= i < |s| ==> IsSpace(s[i])
    ensures r == [] || !IsSpace(r[|r| - 1])
  {
    if s != [] && IsSpace(s[|s| - 1]) then StripRight(s[..|s| - 1]) else s
  }

  /** `r` is `s[i..j]` and everything cut away on either side is white
      space. */
  ghost predicate Trimmed(s: string, r: string, i: int, j: int)
  {
    && 0 <= i <= j <= |s|
    && r == s[i..j]
    && (forall k :: 0 <= k < i ==> IsSpace(s[k]))
    && (forall k :: j <= k < |s| ==> IsSpace(s[k]))
  }

  /** `s.strip()`: a contiguous slice of `s` that neither starts nor ends
      with white space, and everything cut away is white space. */
  function Strip(s: string): (r: string)
    ensures exists i, j :: Trimmed(s, r, i, j)
    ensures r == [] || (!IsSpace(r[0]) && !IsSpace(r[|r| - 1]))
  {
    var l := StripLeft(s);
    var r := StripRight(l);
    StripSlice(s, l, r);
    r
  }

  /** Cutting white space off the front of `s` (leaving `l`) and then off
      the back of `l` (leaving `r`) cuts `s` down to one slice. */
  lemma StripSlice(s: string, l: string, r: string)
    requires |l| <= |s| && l == s[|s| - |l|..]
    requires forall k :: 0 <= k < |s| - |l| ==> IsSpace(s[k])
    requires |r| <= |l| && r == l[..|r|]
    requires forall k :: |r| <= k < |l| ==> IsSpace(l[k])
    ensures Trimmed(s, r, |s| - |l|, |s| - |l| + |r|)
  {
    var i, j := |s| - |l|, |s| - |l| + |r|;
    assert r == s[i..j];
    forall k | j <= k < |s|
      ensures IsSpace(s[k])
    {
      assert s[k] == l[k - i];
    }
  }

  /** Stripping twice is stripping once. */
  lemma StripIdempotent(s: string)
    ensures Strip(Strip(s)) == Strip(s)
  {
    var t := Strip(s);
    assert StripLeft(t) == t;
    assert StripRight(t) == t;
  }

  // ------------------------------------------------------------------- upper

  /** Upper-case a character (ASCII letters only): a lower-case letter
      becomes the capital at the same place in the alphabet. */
  function UpperChar(c: char): (u: char)
    ensures 'a' <= c <= 'z' ==> 'A' <= u <= 'Z' && u as int - 'A' as int == c as int - 'a' as int
    ensures !('a' <= u <= 'z')
    ensures !('a' <= c <= 'z') ==> u == c
    ensures IsSpace(u) <==> IsSpace(c)
    ensures u == ',' <==> c == ','
  {
    if 'a' <= c <= 'z' then (c as int - 32) as char else c
  }

  /** `s.upper()` on ASCII letters: the same length, every character
      upper-cased. */
  function Upper(s: string): (r: string)
    ensures |r| == |s|
    ensures forall i :: 0 <= i < |s| ==> r[i] == UpperChar(s[i])
  {
    if s == [] then [] else [UpperChar(s[0])] + Upper(s[1..])
  }

  /** Upper-casing twice is upper-casing once, and commas and white space are
      untouched. */
  lemma UpperIdempotent(s: string)
    ensures Upper(Upper(s)) == Upper(s)
  {
  }

  lemma UpperKeepsComma(s: string)
    ensures ',' in s <==> ',' in Upper(s)
  {
    if ',' in s {
      var i :| 0 <= i < |s| && s[i] == ',';
      assert Upper(s)[i] == ',';
    }
    if ',' in Upper(s) {
      var i :| 0 <= i < |s| && Upper(s)[i] == ',';
      assert UpperChar(s[i]) == ',';
    }
  }

  // --------------------------------------------------------------- normalise

  /** One exchange symbol per field. */
  function Symbols(fields: seq<string>): (syms: seq<string>)
    ensures |syms| == |fields|
    ensures forall k :: 0 <= k < |fields| ==> syms[k] == Upper(Strip(fields[k])) + ".NS"
  {
    if fields == [] then [] else [Upper(Strip(fields[0])) + ".NS"] + Symbols(fields[1..])
  }

  /** `[t.strip().upper() + ".NS" for t in tickers.split(',')]`. */
  function NormalizeTickers(tickers: string): (syms: seq<string>)
    ensures |syms| == Count(tickers, ',') + 1
    ensures forall k :: 0 <= k < |syms| ==> syms[k] == Upper(Strip(Split(tickers)[k])) + ".NS"
  {
    Symbols(Split(tickers))
  }

  /** The shape of an exchange symbol: a base that holds no comma and
      neither starts nor ends with white space, followed by ".NS". */
  ghost predicate ExchangeSymbol(sym: string)
  {
    && |sym| >= 3
    && sym[|sym| - 3..] == ".NS"
    && var base := sym[..|sym| - 3];
       ',' !in base && (base == [] || (!IsSpace(base[0]) && !IsSpace(base[|base| - 1])))
  }

  /** Stripping a comma-free field leaves it comma-free. */
  lemma StripKeepsCommaFree(field: string)
    requires ',' !in field
    ensures ',' !in Strip(field)
  {
    var t := Strip(field);
    var i, j :| Trimmed(field, t, i, j);
    forall k | 0 <= k < |t|
      ensures t[k] != ','
    {
      assert t[k] == field[i + k];
    }
  }

  /** Upper-casing a stripped comma-free base and appending ".NS" gives an
      exchange symbol. */
  lemma SuffixedShape(t: string)
    requires ',' !in t
    requires t == [] || (!IsSpace(t[0]) && !IsSpace(t[|t| - 1]))
    ensures ExchangeSymbol(Upper(t) + ".NS")
  {
    var base := Upper(t);
    UpperKeepsComma(t);
    if base != [] {
      assert base[0] == UpperChar(t[0]);
      assert base[|base| - 1] == UpperChar(t[|t| - 1]);
    }
    BaseShape(base);
  }

  /** A comma-free base without surrounding white space, followed by ".NS",
      is an exchange symbol. */
  lemma BaseShape(base: string)
    requires ',' !in base
    requires base == [] || (!IsSpace(base[0]) && !IsSpace(base[|base| - 1]))
    ensures ExchangeSymbol(base + ".NS")
  {
    var sym := base + ".NS";
    assert sym[..|sym| - 3] == base;
    assert sym[|sym| - 3..] == ".NS";
  }

  /** The symbol made from one comma-free field has that shape. */
  lemma SymbolShape(field: string)
    requires ',' !in field
    ensures ExchangeSymbol(Upper(Strip(field)) + ".NS")
  {
    StripKeepsCommaFree(field);
    SuffixedShape(Strip(field));
  }

  /** Every normalised symbol has that shape. */
  lemma NormalizedSymbolShape(tickers: string, k: nat)
    requires k < |NormalizeTickers(tickers)|
    ensures ExchangeSymbol(NormalizeTickers(tickers)[k])
  {
    var field := Split(tickers)[k];
    assert NormalizeTickers(tickers)[k] == Upper(Strip(field)) + ".NS";
    SymbolShape(field);
  }
}
