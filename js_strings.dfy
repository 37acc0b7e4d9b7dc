/** The string and array primitives the product form is built from:
    `String.prototype.trim`, `split(' ')`, `join(' ')` and `filter` by index. */
module JsStrings {

  /** The whitespace this model strips. JavaScript's set is larger (all Unicode
      space separators and line terminators); this is a fixed subset of it. */
  predicate IsWhitespace(c: char) {
    c == ' ' || c == '\t' || c == '\n' || c == '\r' || c == '\U{000B}' || c == '\U{000C}'
  }

  /** `s` without its leading whitespace. */
  function TrimStart(s: string): string {
    if s == [] || !IsWhitespace(s[0]) then s else TrimStart(s[1..])
  }

  /** `s` without its trailing whitespace. */
  function TrimEnd(s: string): string {
    if s == [] || !IsWhitespace(s[|s| - 1]) then s else TrimEnd(s[..|s| - 1])
  }

  /** `TrimStart` removes a prefix of whitespace, and exactly all of it. */
  lemma {:induction false} TrimStartDropsLeadingWhitespace(s: string)
    ensures var r := TrimStart(s);
      |r| <= |s| && r == s[|s| - |r|..] &&
      (forall i :: 0 <= i < |s| - |r| ==> IsWhitespace(s[i])) &&
      (r == [] || !IsWhitespace(r[0]))
  {
    if s != [] && IsWhitespace(s[0]) {
      TrimStartDropsLeadingWhitespace(s[1..]);
    }
  }

  /** `TrimEnd` removes a suffix of whitespace, and exactly all of it. */
  lemma {:induction false} TrimEndDropsTrailingWhitespace(s: string)
    ensures var r := TrimEnd(s);
      |r| <= |s| && r == s[..|r|] &&
      (forall i :: |r| <= i < |s| ==> IsWhitespace(s[i])) &&
      (r == [] || !IsWhitespace(r[|r| - 1]))
  {
    if s != [] && IsWhitespace(s[|s| - 1]) {
      TrimEndDropsTrailingWhitespace(s[..|s| - 1]);
    }
  }

  /** `s.trim()`. */
  function Trim(s: string): string {
    TrimEnd(TrimStart(s))
  }

  /** `!s.trim()`: nothing is left after trimming. */
  predicate IsBlank(s: string) {
    Trim(s) == ""
  }

  /** A string is blank exactly when every one of its characters is whitespace. */
  lemma BlankIffAllWhitespace(s: string)
    ensures IsBlank(s) <==> forall i :: 0 <= i < |s| ==> IsWhitespace(s[i])
  {
    var t := TrimStart(s);
    TrimStartDropsLeadingWhitespace(s);
    TrimEndDropsTrailingWhitespace(t);
    if IsBlank(s) {
      assert t == [];
    } else {
      var r := Trim(s);
      assert r != [] && r[0] == t[0];
      assert !IsWhitespace(s[|s| - |t|]);
    }
  }

  /** `urls.join(' ')`: the elements with one space between neighbours. */
  function Join(xs: seq<string>): string {
    if |xs| == 0 then ""
    else if |xs| == 1 then xs[0]
    else xs[0] + " " + Join(xs[1..])
  }

  /** `s.split(' ')`: the maximal space-free pieces of `s`, in order. Like
      JavaScript's, it returns at least one piece (`"".split(' ')` is `[""]`). */
  function Split(s: string): (r: seq<string>)
    ensures |r| >= 1
    ensures forall i :: 0 <= i < |r| ==> ' ' !in r[i]
  {
    if s == [] then [""]
    else if s[0] == ' ' then [""] + Split(s[1..])
    else
      var rest := Split(s[1..]);
      [[s[0]] + rest[0]] + rest[1..]
  }

  /** A piece without spaces splits to itself. */
  lemma {:induction false} SplitWord(w: string)
    requires ' ' !in w
    ensures Split(w) == [w]
  {
    if w != [] {
      assert ' ' !in w[1..];
      SplitWord(w[1..]);
      assert [w[0]] + w[1..] == w;
    }
  }

  /** A space-free piece followed by a space splits off as one element. */
  lemma {:induction false} SplitWordThenSpace(w: string, rest: string)
    requires ' ' !in w
    ensures Split(w + " " + rest) == [w] + Split(rest)
  {
    if w == [] {
      assert w + " " + rest == [' '] + rest;
      assert (w + " " + rest)[1..] == rest;
    } else {
      assert ' ' !in w[1..];
      SplitWordThenSpace(w[1..], rest);
      var s := w + " " + rest;
      assert s[0] == w[0] && s[0] != ' ';
      assert s[1..] == w[1..] + " " + rest;
      assert [w[0]] + w[1..] == w;
    }
  }

  /** Splitting the space-joined list gives the list back, provided it is
      not empty and no element contains a space. */
  lemma {:induction false} SplitJoin(xs: seq<string>)
    requires |xs| >= 1
    requires forall i :: 0 <= i < |xs| ==> ' ' !in xs[i]
    ensures Split(Join(xs)) == xs
  {
    if |xs| == 1 {
      SplitWord(xs[0]);
    } else {
      SplitJoin(xs[1..]);
      SplitWordThenSpace(xs[0], Join(xs[1..]));
      assert [xs[0]] + xs[1..] == xs;
    }
  }

  /** A leading empty element adds one leading space to the join. */
  lemma JoinPrependEmpty(xs: seq<string>)
    requires |xs| >= 1
    ensures Join([""] + xs) == " " + Join(xs)
  {
    assert ([""] + xs)[1..] == xs;
  }

  /** Prefixing the first element with a character prefixes the join with it. */
  lemma JoinPrependChar(c: char, xs: seq<string>)
    requires |xs| >= 1
    ensures Join([[c] + xs[0]] + xs[1..]) == [c] + Join(xs)
  {
    var ys := [[c] + xs[0]] + xs[1..];
    if |xs| > 1 {
      assert ys[1..] == xs[1..];
    }
  }

  /** Joining the pieces of a split gives the string back, for every string. */
  lemma {:induction false} JoinSplit(s: string)
    ensures Join(Split(s)) == s
  {
    if s != [] {
      var rest := Split(s[1..]);
      JoinSplit(s[1..]);
      if s[0] == ' ' {
        JoinPrependEmpty(rest);
      } else {
        JoinPrependChar(s[0], rest);
      }
      assert [s[0]] + s[1..] == s;
    }
  }

  /** Appending an empty element adds one trailing space to the join. */
  lemma {:induction false} JoinAppendEmpty(xs: seq<string>)
    requires |xs| >= 1
    ensures Join(xs + [""]) == Join(xs) + " "
  {
    if |xs| == 1 {
      assert Join(xs + [""]) == xs[0] + " " + Join([""]);
    } else {
      JoinAppendEmpty(xs[1..]);
      assert (xs + [""])[1..] == xs[1..] + [""];
    }
  }

  /** `xs.filter((_, index) => index !== i)`: every element whose position
      is not `i`, in order. */
  function WithoutIndex<T>(xs: seq<T>, i: int): seq<T> {
    if xs == [] then []
    else
      var init := WithoutIndex(xs[..|xs| - 1], i);
      if |xs| - 1 == i then init else init + [xs[|xs| - 1]]
  }

  /** Filtering out an index in range drops exactly that element and keeps
      the others in order; an index out of range changes nothing. */
  lemma {:induction false} WithoutIndexIsSlices<T>(xs: seq<T>, i: int)
    ensures 0 <= i < |xs| ==> WithoutIndex(xs, i) == xs[..i] + xs[i + 1..]
    ensures !(0 <= i < |xs|) ==> WithoutIndex(xs, i) == xs
  {
    if xs != [] {
      var init := xs[..|xs| - 1];
      WithoutIndexIsSlices(init, i);
      if |xs| - 1 == i {
        assert init == xs[..i] && xs[i + 1..] == [];
      } else if 0 <= i < |xs| - 1 {
        assert init[..i] == xs[..i];
        assert init[i + 1..] + [xs[|xs| - 1]] == xs[i + 1..];
      } else {
        assert init + [xs[|xs| - 1]] == xs;
      }
    }
  }
}
