/**
 * A model of the numeric collation the pages sort chapter numbers with
 * (`a.localeCompare(b, undefined, {numeric: true})`), and the in-place sort
 * that uses it.
 *
 * A chapter number is read as a sequence of tokens: a maximal run of decimal
 * digits is one token compared by its value, every other character is a token
 * of its own. Punctuation sorts before digit runs and digit runs before
 * letters; two strings compare token by token, a proper prefix first. This
 * agrees with the collation on numbers made of digit runs and dots, the form
 * the pages give chapter numbers; it does not follow the collation's case-blind
 * comparison of letters nor its own order among punctuation characters.
 */
module NumOrder {
  import opened Cells

  datatype Token = Run(v: nat) | Sym(c: char)

  function Tokens(s: string): seq<Token>
    decreases |s|
  {
    if s == [] then []
    else if IsDigit(s[0]) then
      var k := DigitRun(s);
      [Run(DigitsValue(s[..k]))] + Tokens(s[k..])
    else [Sym(s[0])] + Tokens(s[1..])
  }

  predicate IsLetter(c: char)
  {
    ('a' <= c <= 'z') || ('A' <= c <= 'Z') || ('\U{C0}' <= c <= '\U{24F}' && c != '\U{D7}' && c != '\U{F7}')
  }

  /** Punctuation and spaces, then digit runs, then letters. */
  function Rank(t: Token): nat
  {
    match t
    case Sym(c) => if IsLetter(c) then 2 else 0
    case Run(_) => 1
  }

  predicate TokenLt(a: Token, b: Token)
  {
    Rank(a) < Rank(b)
    || (Rank(a) == Rank(b) && (if a.Run? then b.Run? && a.v < b.v else b.Sym? && a.c < b.c))
  }

  /** Lexicographic order on token sequences, a proper prefix first. */
  predicate LexLe(a: seq<Token>, b: seq<Token>)
  {
    a == [] || (b != [] && (TokenLt(a[0], b[0]) || (a[0] == b[0] && LexLe(a[1..], b[1..]))))
  }

  /** `x` sorts no later than `y`: the model of `x.localeCompare(y, undefined, {numeric: true}) <= 0`. */
  predicate NumLe(x: string, y: string)
  {
    LexLe(Tokens(x), Tokens(y))
  }

  lemma {:induction false} TokenTrichotomy(a: Token, b: Token)
    ensures TokenLt(a, b) || a == b || TokenLt(b, a)
    ensures !(TokenLt(a, b) && TokenLt(b, a))
    ensures !TokenLt(a, a)
  {
  }

  lemma {:induction false} LexLeRefl(a: seq<Token>)
    ensures LexLe(a, a)
  {
    if a != [] {
      LexLeRefl(a[1..]);
    }
  }

  lemma {:induction false} LexLeTotal(a: seq<Token>, b: seq<Token>)
    ensures LexLe(a, b) || LexLe(b, a)
  {
    if a != [] && b != [] {
      TokenTrichotomy(a[0], b[0]);
      if a[0] == b[0] {
        LexLeTotal(a[1..], b[1..]);
      }
    }
  }

  lemma {:induction false} LexLeTrans(a: seq<Token>, b: seq<Token>, c: seq<Token>)
    requires LexLe(a, b) && LexLe(b, c)
    ensures LexLe(a, c)
  {
    if a != [] {
      assert b != [] && c != [];
      if a[0] == b[0] && b[0] == c[0] {
        LexLeTrans(a[1..], b[1..], c[1..]);
      } else {
        TokenTrichotomy(a[0], c[0]);
      }
    }
  }

  /** The collation is a total preorder, which is what sorting by it needs. */
  lemma {:induction false} NumLeTotalPreorder(x: string, y: string, z: string)
    ensures NumLe(x, x)
    ensures NumLe(x, y) || NumLe(y, x)
    ensures NumLe(x, y) && NumLe(y, z) ==> NumLe(x, z)
  {
    LexLeRefl(Tokens(x));
    LexLeTotal(Tokens(x), Tokens(y));
    if NumLe(x, y) && NumLe(y, z) {
      LexLeTrans(Tokens(x), Tokens(y), Tokens(z));
    }
  }

  /** Chapter numbers compare by the value of their digit runs: "2" before "10". */
  lemma {:induction false} NumLeRuns()
    ensures NumLe("2", "10") && !NumLe("10", "2")
  {
    assert Tokens("2") == [Run(2)];
    assert "10"[..2] == "10";
    assert Tokens("10") == [Run(10)];
  }

  /** Runs after a separator compare by value too: "1.2" before "1.10". */
  lemma {:induction false} NumLeDotted()
    ensures NumLe("1.2", "1.10") && !NumLe("1.10", "1.2")
  {
    assert "1.2"[..1] == "1" && "1.2"[1..] == ".2" && ".2"[1..] == "2";
    assert Tokens("2") == [Run(2)];
    assert Tokens(".2") == [Sym('.'), Run(2)];
    assert Tokens("1.2") == [Run(1), Sym('.'), Run(2)];
    assert "1.10"[..1] == "1" && "1.10"[1..] == ".10" && ".10"[1..] == "10";
    assert Tokens(".10") == [Sym('.'), Run(10)];
    assert Tokens("1.10") == [Run(1), Sym('.'), Run(10)];
  }

  /** A number comes before its own sub-numbers: "1" before "1.1". */
  lemma {:induction false} NumLePrefix()
    ensures NumLe("1", "1.1") && !NumLe("1.1", "1")
  {
    assert "1.1"[..1] == "1" && "1.1"[1..] == ".1" && ".1"[1..] == "1";
    assert Tokens("1") == [Run(1)];
    assert Tokens(".1") == [Sym('.'), Run(1)];
    assert Tokens("1.1") == [Run(1), Sym('.'), Run(1)];
  }

  ghost predicate SortedBy<T>(s: seq<T>, key: T -> string)
  {
    forall i, j :: 0 <= i < j < |s| ==> NumLe(key(s[i]), key(s[j]))
  }

  /** Two keys tie when each comes no later than the other ("1" and "01"). */
  predicate Tied(u: string, v: string)
  {
    NumLe(u, v) && NumLe(v, u)
  }

  /** The elements of `s` whose key ties with `v`, in their order in `s`. */
  function Ties<T>(s: seq<T>, v: string, key: T -> string): seq<T>
  {
    if s == [] then [] else Ties(s[..|s| - 1], v, key) + (if Tied(key(s[|s| - 1]), v) then [s[|s| - 1]] else [])
  }

  /** `r` is `s` sorted by the key with ties left in their order: what a stable sort gives. */
  ghost predicate StableSorted<T>(r: seq<T>, s: seq<T>, key: T -> string)
  {
    SortedBy(r, key) && multiset(r) == multiset(s) && forall v :: Ties(r, v, key) == Ties(s, v, key)
  }

  /** One insertion pass on values: `y` goes after the last element whose key does not come after its own. */
  function Insert<T>(t: seq<T>, y: T, key: T -> string): (r: seq<T>)
    ensures |r| == |t| + 1
  {
    if t == [] || NumLe(key(t[|t| - 1]), key(y)) then t + [y]
    else Insert(t[..|t| - 1], y, key) + [t[|t| - 1]]
  }

  /** Insertion sort on values: each element in turn inserted into the sorted prefix. */
  function InsSort<T>(s: seq<T>, key: T -> string): (r: seq<T>)
    ensures |r| == |s|
  {
    if s == [] then [] else Insert(InsSort(s[..|s| - 1], key), s[|s| - 1], key)
  }

  lemma {:induction false} TiesAppend<T>(a: seq<T>, b: seq<T>, v: string, key: T -> string)
    ensures Ties(a + b, v, key) == Ties(a, v, key) + Ties(b, v, key)
    decreases |b|
  {
    if b == [] {
      assert a + b == a;
    } else {
      var b' := b[..|b| - 1];
      assert (a + b)[..|a + b| - 1] == a + b';
      assert (a + b)[|a + b| - 1] == b[|b| - 1];
      TiesAppend(a, b', v, key);
      AppendAssoc(Ties(a, v, key), Ties(b', v, key), Ties([b[|b| - 1]], v, key));
      assert Ties([b[|b| - 1]], v, key) == (if Tied(key(b[|b| - 1]), v) then [b[|b| - 1]] else []) by {
        assert [b[|b| - 1]][..0] == [];
      }
    }
  }

  /** Inserting keeps the elements, one more. */
  lemma {:induction false} InsertMultiset<T>(t: seq<T>, y: T, key: T -> string)
    ensures multiset(Insert(t, y, key)) == multiset(t) + multiset{y}
  {
    if !(t == [] || NumLe(key(t[|t| - 1]), key(y))) {
      var t' := t[..|t| - 1];
      InsertMultiset(t', y, key);
      assert t == t' + [t[|t| - 1]];
    }
  }

  /** Inserting into a sorted sequence keeps it sorted. */
  lemma {:induction false} InsertSorted<T>(t: seq<T>, y: T, key: T -> string)
    requires SortedBy(t, key)
    ensures SortedBy(Insert(t, y, key), key)
  {
    var r := Insert(t, y, key);
    if t == [] {
    } else if NumLe(key(t[|t| - 1]), key(y)) {
      forall p | 0 <= p < |t|
        ensures NumLe(key(t[p]), key(y))
      {
        NumLeTotalPreorder(key(t[p]), key(t[|t| - 1]), key(y));
      }
    } else {
      var t', l := t[..|t| - 1], t[|t| - 1];
      InsertSorted(t', y, key);
      InsertMultiset(t', y, key);
      var u := Insert(t', y, key);
      NumLeTotalPreorder(key(l), key(y), key(y));
      forall p | 0 <= p < |u|
        ensures NumLe(key(u[p]), key(l))
      {
        assert u[p] in multiset(u);
        if u[p] != y {
          assert u[p] in multiset(t');
          var k :| 0 <= k < |t'| && t'[k] == u[p];
          assert t[k] == u[p];
        }
      }
    }
  }

  /** Inserting `y` puts it after the elements it ties with: the ties of the others keep their order. */
  lemma {:induction false} InsertTies<T>(t: seq<T>, y: T, v: string, key: T -> string)
    ensures Ties(Insert(t, y, key), v, key) == Ties(t, v, key) + Ties([y], v, key)
  {
    if t == [] || NumLe(key(t[|t| - 1]), key(y)) {
      TiesAppend(t, [y], v, key);
    } else {
      var t', l := t[..|t| - 1], t[|t| - 1];
      InsertTies(t', y, v, key);
      TiesAppend(Insert(t', y, key), [l], v, key);
      TiesAppend(t', [l], v, key);
      assert t' + [l] == t;
      assert [y][..0] == [] && [l][..0] == [];
      if Tied(key(y), v) && Tied(key(l), v) {
        NumLeTotalPreorder(key(l), v, key(y));
      }
      AppendAssoc(Ties(t', v, key), Ties([y], v, key), Ties([l], v, key));
      AppendAssoc(Ties(t', v, key), Ties([l], v, key), Ties([y], v, key));
    }
  }

  /** Insertion sort is a stable sort. */
  lemma {:induction false} InsSortStable<T>(s: seq<T>, key: T -> string)
    ensures StableSorted(InsSort(s, key), s, key)
  {
    if s != [] {
      var s', y := s[..|s| - 1], s[|s| - 1];
      InsSortStable(s', key);
      InsertSorted(InsSort(s', key), y, key);
      InsertMultiset(InsSort(s', key), y, key);
      assert s == s' + [y];
      forall v
        ensures Ties(InsSort(s, key), v, key) == Ties(s, v, key)
      {
        InsertTies(InsSort(s', key), y, v, key);
        TiesAppend(s', [y], v, key);
      }
    }
  }

  /** "1" and "01" tie, so either order of the two is already sorted and stays as it is. */
  lemma {:induction false} TiedNumbersKeepOrder()
    ensures Tied("01", "1")
    ensures InsSort(["01", "1"], (n: string) => n) == ["01", "1"]
    ensures InsSort(["1", "01"], (n: string) => n) == ["1", "01"]
  {
    assert "01"[1..] == "1" && "1"[1..] == "";
    assert DigitRun("01") == 2;
    assert "01"[..2] == "01" && "01"[..1] == "0";
    assert DigitsValue("0") == 0;
    assert DigitsValue("01") == 1;
    assert Tokens("01") == [Run(1)];
    assert Tokens("1") == [Run(1)];
    assert ["01", "1"][..1] == ["01"] && ["1", "01"][..1] == ["1"];
    assert ["01"][..0] == [] && ["1"][..0] == [];
  }

  /**
   * `array.sort((a, b) => key(a).localeCompare(key(b), undefined, {numeric: true}))`:
   * an insertion sort in place, so the array ends sorted by the key, a
   * permutation of itself, with chapters whose numbers tie in their order.
   */
  method SortByNum<T>(a: array<T>, key: T -> string)
    modifies a
    ensures a[..] == InsSort(old(a[..]), key)
    ensures StableSorted(a[..], old(a[..]), key)
  {
    ghost var a0 := a[..];
    for i := 0 to a.Length
      invariant a[..i] == InsSort(a0[..i], key) && a[i..] == a0[i..]
    {
      ghost var before := a[..];
      InsertAt(a, i, key);
      SortStep(a0, before, a[..], i, key);
    }
    assert a[..] == a[..a.Length] && a0 == a0[..a.Length];
    InsSortStable(a0, key);
  }

  /** One insertion pass extends the sorted prefix by the next element of the input. */
  lemma {:induction false} SortStep<T>(a0: seq<T>, b: seq<T>, c: seq<T>, i: nat, key: T -> string)
    requires i < |a0| == |b| == |c|
    requires b[..i] == InsSort(a0[..i], key) && b[i..] == a0[i..]
    requires c[..i + 1] == Insert(b[..i], b[i], key) && c[i + 1..] == b[i + 1..]
    ensures c[..i + 1] == InsSort(a0[..i + 1], key) && c[i + 1..] == a0[i + 1..]
  {
    assert a0[..i + 1][..i] == a0[..i] && a0[..i + 1][i] == a0[i] == b[i];
    assert b[i + 1..] == b[i..][1..] && a0[i + 1..] == a0[i..][1..];
  }

  /** One pass of the insertion: `a[i]` moves down past the keys before it that come after its own. */
  method InsertAt<T>(a: array<T>, i: nat, key: T -> string)
    requires i < a.Length
    modifies a
    ensures a[..i + 1] == Insert(old(a[..i]), old(a[i]), key) && a[i + 1..] == old(a[i + 1..])
  {
    ghost var x := a[i];
    ghost var t := a[..i];
    var j := i;
    while j > 0 && !NumLe(key(a[j - 1]), key(a[j]))
      invariant 0 <= j <= i && a[j] == x
      invariant a[i + 1..] == old(a[i + 1..])
      invariant Insert(t, x, key) == Insert(a[..j], x, key) + a[j + 1..i + 1]
    {
      ghost var s := a[..];
      a[j - 1], a[j] := a[j], a[j - 1];
      assert a[..] == s[j - 1 := s[j]][j := s[j - 1]];
      SwapStep(s, t, x, i, j, key);
      j := j - 1;
    }
    assert a[..i + 1] == a[..j] + [x] + a[j + 1..i + 1];
  }

  /** One swap of the insertion loop keeps `Insert(t, x)` split at the element's new place. */
  lemma {:induction false} SwapStep<T>(s: seq<T>, t: seq<T>, x: T, i: nat, j: nat, key: T -> string)
    requires 0 < j <= i < |s| && s[j] == x && !NumLe(key(s[j - 1]), key(x))
    requires Insert(t, x, key) == Insert(s[..j], x, key) + s[j + 1..i + 1]
    ensures var s' := s[j - 1 := s[j]][j := s[j - 1]];
      s'[j - 1] == x && s'[i + 1..] == s[i + 1..] &&
      Insert(t, x, key) == Insert(s'[..j - 1], x, key) + s'[j..i + 1]
  {
    var s' := s[j - 1 := s[j]][j := s[j - 1]];
    assert s[..j][..j - 1] == s[..j - 1] == s'[..j - 1];
    assert s'[j..i + 1] == [s[j - 1]] + s[j + 1..i + 1];
  }
}
