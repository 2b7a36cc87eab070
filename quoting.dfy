/** `BigQueryAdapter::Quoting`: string literals and table identifiers for generated SQL. */
module Quoting {
  import opened Wrappers

  const Quote: char := '\''

  /** How many times `c` occurs in `s`. */
  function Occurrences(s: string, c: char): nat {
    if s == [] then 0 else (if s[0] == c then 1 else 0) + Occurrences(s[1..], c)
  }

  /** `quote_string`: every single quote is doubled (`gsub(/'/, "''")`). */
  function QuoteString(s: string): (r: string)
    ensures |r| == |s| + Occurrences(s, Quote)
    ensures Quote !in s ==> r == s
  {
    if s == [] then []
    else (if s[0] == Quote then [Quote, Quote] else [s[0]]) + QuoteString(s[1..])
  }

  /** Reading an escaped literal back, left to right: `''` stands for `'`, and a lone `'` is malformed. */
  function UnquoteString(t: string): Option<string> {
    if t == [] then Some([])
    else if t[0] != Quote then
      match UnquoteString(t[1..])
      case None => None
      case Some(rest) => Some([t[0]] + rest)
    else if |t| >= 2 && t[1] == Quote then
      match UnquoteString(t[2..])
      case None => None
      case Some(rest) => Some([Quote] + rest)
    else None
  }

  /** Undoing the escape recovers the input. */
  lemma {:induction false} UnquoteQuoteString(s: string)
    ensures UnquoteString(QuoteString(s)) == Some(s)
  {
    if s != [] {
      UnquoteQuoteString(s[1..]);
      var t := QuoteString(s);
      if s[0] == Quote {
        assert t[2..] == QuoteString(s[1..]);
      } else {
        assert t[1..] == QuoteString(s[1..]);
      }
      assert s == [s[0]] + s[1..];
    }
  }

  /** Every well-formed escaped literal is the escape of exactly what it reads back as. */
  lemma {:induction false} QuoteStringOfUnquoted(t: string, s: string)
    requires UnquoteString(t) == Some(s)
    ensures QuoteString(s) == t
  {
    if t != [] {
      if t[0] != Quote {
        var rest := UnquoteString(t[1..]).value;
        QuoteStringOfUnquoted(t[1..], rest);
        assert s == [t[0]] + rest;
        assert s[1..] == rest;
        assert t == [t[0]] + t[1..];
      } else {
        var rest := UnquoteString(t[2..]).value;
        QuoteStringOfUnquoted(t[2..], rest);
        assert s == [Quote] + rest;
        assert s[1..] == rest;
        assert t == [Quote, Quote] + t[2..];
      }
    }
  }

  /** `s` with every single quote taken out. */
  function WithoutQuotes(s: string): string {
    if s == [] then [] else (if s[0] == Quote then [] else [s[0]]) + WithoutQuotes(s[1..])
  }

  lemma {:induction false} WithoutQuotesAppend(a: string, b: string)
    ensures WithoutQuotes(a + b) == WithoutQuotes(a) + WithoutQuotes(b)
  {
    if a != [] {
      assert (a + b)[0] == a[0];
      assert (a + b)[1..] == a[1..] + b;
      WithoutQuotesAppend(a[1..], b);
    } else {
      assert a + b == b;
    }
  }

  /** Escaping leaves every other character in place and in order. */
  lemma {:induction false} QuoteStringKeepsOtherCharacters(s: string)
    ensures WithoutQuotes(QuoteString(s)) == WithoutQuotes(s)
  {
    if s != [] {
      QuoteStringKeepsOtherCharacters(s[1..]);
      var head := if s[0] == Quote then [Quote, Quote] else [s[0]];
      WithoutQuotesAppend(head, QuoteString(s[1..]));
      assert WithoutQuotes([Quote, Quote]) == [] by {
        assert [Quote, Quote][1..] == [Quote];
        assert [Quote][1..] == [];
      }
      assert [s[0]][1..] == [];
    }
  }

  /** `t[i..j]` is a maximal, non-empty run of single quotes. */
  predicate QuoteRun(t: string, i: int, j: int) {
    0 <= i < j <= |t| &&
    (forall k :: i <= k < j ==> t[k] == Quote) &&
    (i == 0 || t[i - 1] != Quote) &&
    (j == |t| || t[j] != Quote)
  }

  /** In a well-formed escaped literal every maximal run of quotes has even length. */
  lemma {:induction false} WellFormedRunsAreEven(t: string)
    requires UnquoteString(t).Some?
    ensures forall i, j :: QuoteRun(t, i, j) ==> (j - i) % 2 == 0
    decreases |t|
  {
    if t != [] {
      if t[0] != Quote {
        var u := t[1..];
        WellFormedRunsAreEven(u);
        forall i, j | QuoteRun(t, i, j) ensures (j - i) % 2 == 0 {
          assert i >= 1;
          assert QuoteRun(u, i - 1, j - 1);
        }
      } else {
        var u := t[2..];
        WellFormedRunsAreEven(u);
        forall i, j | QuoteRun(t, i, j) ensures (j - i) % 2 == 0 {
          if i == 0 {
            assert j >= 2;
            if j > 2 {
              assert QuoteRun(u, 0, j - 2);
            }
          } else {
            assert i >= 3;
            assert QuoteRun(u, i - 2, j - 2);
          }
        }
      }
    }
  }

  /** Every maximal run of quotes in the output of `quote_string` has even length. */
  lemma QuoteStringRunsAreEven(s: string)
    ensures forall i, j :: QuoteRun(QuoteString(s), i, j) ==> (j - i) % 2 == 0
  {
    UnquoteQuoteString(s);
    WellFormedRunsAreEven(QuoteString(s));
  }

  /** `quote_table_name`: the name between backticks, nothing escaped. */
  function QuoteTableName(name: string): (r: string)
    ensures |r| == |name| + 2
    ensures r[0] == '`' && r[|r| - 1] == '`'
    ensures r[1..|r| - 1] == name
  {
    "`" + name + "`"
  }
}
