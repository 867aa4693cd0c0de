/** The Python built-ins that `my_utils.py` relies on, with the exact
    semantics it depends on: `list.index`, reversal by `[-1::-1]`,
    `str.split()` with no separator, indexing with possibly negative indices,
    and `os.path.basename`. */
module PyBuiltins {
  import opened Outcomes

  /** `i` is the first position of `v` in `a`. */
  predicate IsFirst<T(==)>(a: seq<T>, v: T, i: int) {
    0 <= i < |a| && a[i] == v && forall j :: 0 <= j < i ==> a[j] != v
  }

  /** `i` is the last position of `v` in `a`. */
  predicate IsLast<T(==)>(a: seq<T>, v: T, i: int) {
    0 <= i < |a| && a[i] == v && forall j :: i < j < |a| ==> a[j] != v
  }

  lemma FirstIsUnique<T>(a: seq<T>, v: T, i: int, k: int)
    requires IsFirst(a, v, i) && IsFirst(a, v, k)
    ensures i == k
  {
  }

  lemma LastIsUnique<T>(a: seq<T>, v: T, i: int, k: int)
    requires IsLast(a, v, i) && IsLast(a, v, k)
    ensures i == k
  {
  }

  /** `a.index(v)`: the first position of `v`, or ValueError when `v` is absent. */
  function ListIndex(a: seq<string>, v: string): (r: Result<nat>)
    ensures r.Ok? <==> v in a
    ensures r.Ok? ==> IsFirst(a, v, r.value)
    ensures r.Err? ==> r.error == ValueNotInList(v)
  {
    if a == [] then Err(ValueNotInList(v))
    else if a[0] == v then Ok(0)
    else
      var i :- ListIndex(a[1..], v);
      Ok(i + 1)
  }

  /** `a[-1::-1]`: the whole list back to front. */
  function Reversed<T>(a: seq<T>): (r: seq<T>)
    ensures |r| == |a|
    ensures forall i :: 0 <= i < |a| ==> r[i] == a[|a| - 1 - i]
  {
    seq(|a|, i requires 0 <= i < |a| => a[|a| - 1 - i])
  }

  /** `s[i]` on a list, string or tuple, with Python's negative indices:
      index `i` names element `i` when `0 <= i`, element `|s| + i` when
      `-|s| <= i < 0`, and raises IndexError otherwise. */
  function PyIndex<T>(s: seq<T>, i: int): (r: Result<T>)
    ensures r.Ok? <==> -|s| <= i < |s|
    ensures r.Ok? ==> r.value == s[i % |s|]
    ensures r.Err? ==> r.error == IndexOutOfRange
  {
    if 0 <= i < |s| then Ok(s[i])
    else if -|s| <= i < 0 then Ok(s[|s| + i])
    else Err(IndexOutOfRange)
  }

  /** The characters `str.split()` treats as separators (those of `str.isspace`). */
  predicate IsSpace(c: char) {
    ('\t' <= c <= '\r') || ('\U{1C}' <= c <= '\U{1F}') || c == ' '
    || c == '\U{85}' || c == '\U{A0}' || c == '\U{1680}'
    || ('\U{2000}' <= c <= '\U{200A}') || c == '\U{2028}' || c == '\U{2029}'
    || c == '\U{202F}' || c == '\U{205F}' || c == '\U{3000}'
  }

  /** A token `str.split()` can produce: non-empty and free of separators. */
  predicate IsWord(w: string) {
    w != [] && forall i :: 0 <= i < |w| ==> !IsSpace(w[i])
  }

  /** Length of the run of non-separator characters at the start of `s`. */
  function WordLength(s: string): (n: nat)
    ensures n <= |s|
    ensures forall i :: 0 <= i < n ==> !IsSpace(s[i])
    ensures n < |s| ==> IsSpace(s[n])
  {
    if s == [] || IsSpace(s[0]) then 0 else 1 + WordLength(s[1..])
  }

  /** `s.split()`: the maximal runs of non-separators, in order. */
  function Split(s: string): (r: seq<string>)
    ensures forall k :: 0 <= k < |r| ==> IsWord(r[k])
    decreases |s|
  {
    if s == [] then []
    else if IsSpace(s[0]) then Split(s[1..])
    else
      var n := WordLength(s);
      [s[..n]] + Split(s[n..])
  }

  /** `" ".join(ws)`, the inverse of `Split` on words. */
  function Join(ws: seq<string>): string {
    if |ws| == 0 then ""
    else if |ws| == 1 then ws[0]
    else ws[0] + " " + Join(ws[1..])
  }

  lemma SplitAfterWord(w: string, s: string)
    requires IsWord(w)
    requires s == [] || IsSpace(s[0])
    ensures Split(w + s) == [w] + Split(s)
  {
    var ws := w + s;
    var n := WordLength(ws);
    assert forall i :: 0 <= i < |w| ==> ws[i] == w[i];
    assert |w| < |ws| ==> ws[|w|] == s[0];
    assert n == |w|;
    assert ws[..n] == w && ws[n..] == s;
  }

  /** Splitting words joined by single spaces gives back the words. */
  lemma {:induction false} SplitJoin(ws: seq<string>)
    requires forall k :: 0 <= k < |ws| ==> IsWord(ws[k])
    ensures Split(Join(ws)) == ws
  {
    if |ws| == 1 {
      SplitAfterWord(ws[0], "");
      assert ws[0] + "" == ws[0];
    } else if |ws| > 1 {
      var rest := " " + Join(ws[1..]);
      SplitAfterWord(ws[0], rest);
      assert rest[1..] == Join(ws[1..]);
      SplitJoin(ws[1..]);
      assert ws[0] + " " + Join(ws[1..]) == ws[0] + rest;
      assert [ws[0]] + ws[1..] == ws;
    }
  }

  /** `g` is a run of separators, possibly empty. */
  predicate IsBlank(g: string) {
    forall i :: 0 <= i < |g| ==> IsSpace(g[i])
  }

  /** The words `ws` laid out with the runs `gaps`: `gaps[0]` before the
      first word, `gaps[k]` between words `k - 1` and `k`, and the last gap
      after the last word. */
  function Layout(ws: seq<string>, gaps: seq<string>): string
    requires |gaps| == |ws| + 1
    decreases ws
  {
    if ws == [] then gaps[0] else gaps[0] + ws[0] + Layout(ws[1..], gaps[1..])
  }

  /** Leading separators are dropped. */
  lemma {:induction false} SplitBlank(g: string, t: string)
    requires IsBlank(g)
    ensures Split(g + t) == Split(t)
  {
    if g == [] {
      assert g + t == t;
    } else {
      assert (g + t)[0] == g[0];
      assert (g + t)[1..] == g[1..] + t;
      SplitBlank(g[1..], t);
    }
  }

  /** Splitting words separated by any non-empty runs of whitespace, with any
      whitespace before the first and after the last, gives back the words. */
  lemma {:induction false} SplitLayout(ws: seq<string>, gaps: seq<string>)
    requires |gaps| == |ws| + 1
    requires forall k :: 0 <= k < |ws| ==> IsWord(ws[k])
    requires forall k :: 0 <= k < |gaps| ==> IsBlank(gaps[k])
    requires forall k :: 0 < k < |ws| ==> gaps[k] != []
    ensures Split(Layout(ws, gaps)) == ws
    decreases ws
  {
    if ws == [] {
      SplitBlank(gaps[0], []);
      assert gaps[0] + [] == gaps[0];
    } else {
      var rest := Layout(ws[1..], gaps[1..]);
      if ws[1..] == [] {
        assert rest == gaps[1];
      } else {
        assert rest == gaps[1] + ws[1] + Layout(ws[2..], gaps[2..]);
        assert gaps[1] != [] && rest[0] == gaps[1][0];
      }
      SplitAfterWord(ws[0], rest);
      SplitLayout(ws[1..], gaps[1..]);
      SplitBlank(gaps[0], ws[0] + rest);
      assert gaps[0] + ws[0] + rest == gaps[0] + (ws[0] + rest);
      assert [ws[0]] + ws[1..] == ws;
    }
  }

  /** `os.path.basename(p)`: what follows the last `/` of `p` (all of `p`
      when it has none). */
  function Basename(p: string): (r: string)
    ensures '/' !in r
    ensures |r| <= |p| && forall i :: 0 <= i < |r| ==> r[i] == p[|p| - |r| + i]
    ensures |r| < |p| ==> p[|p| - |r| - 1] == '/'
  {
    if p == [] || p[|p| - 1] == '/' then []
    else Basename(p[..|p| - 1]) + [p[|p| - 1]]
  }
}
