/** The static helpers of class Utility (utility.cpp): path normalisation,
    strict boolean parsing, splitting on a set of separator characters and
    lenient or strict conversion of string lists to numbers. */
module Utility {
  import opened Results

  datatype UtilityError =
    | OutOfRange      // std::out_of_range from std::string::at
    | InvalidArgument // std::invalid_argument thrown by stob
    | NotANumber      // the conversion exception rethrown by toDoubles / toInts

  predicate IsSlash(c: char) {
    c == '/' || c == '\\'
  }

  /** endWithSlash: s itself when it already ends in a forward or backward
      slash, otherwise s with '/' appended; on the empty string the call
      `s.at(s.length() - 1)` throws. */
  function EndWithSlash(s: string): (r: Result<string, UtilityError>)
    ensures r.Success? <==> |s| > 0
    ensures r.Failure? ==> r.error == OutOfRange
    ensures r.Success? ==> |s| <= |r.value| <= |s| + 1 && r.value[..|s|] == s
    ensures r.Success? ==> IsSlash(r.value[|r.value| - 1])
    ensures r.Success? && IsSlash(s[|s| - 1]) ==> r.value == s
    ensures r.Success? && !IsSlash(s[|s| - 1]) ==> r.value == s + "/"
  {
    if |s| == 0 then Failure(OutOfRange)
    else if IsSlash(s[|s| - 1]) then Success(s)
    else Success(s + "/")
  }

  /** Normalising a normalised path changes nothing. */
  lemma EndWithSlashIdempotent(s: string)
    requires EndWithSlash(s).Success?
    ensures EndWithSlash(EndWithSlash(s).value) == EndWithSlash(s)
  {
  }

  /** stob: exactly "true" and "false" are booleans. */
  function Stob(s: string): (r: Result<bool, UtilityError>)
    ensures r == Success(true) <==> s == "true"
    ensures r == Success(false) <==> s == "false"
    ensures r.Failure? <==> s != "true" && s != "false"
    ensures r.Failure? ==> r.error == InvalidArgument
  {
    if s == "true" then Success(true)
    else if s != "false" then Failure(InvalidArgument)
    else Success(false)
  }

  /** find_last_of: the last position of s that holds one of chars. */
  function FindLastOf(s: string, chars: string): (n: Option<nat>)
    ensures n.None? ==> forall k | 0 <= k < |s| :: s[k] !in chars
    ensures n.Some? ==> n.value < |s| && s[n.value] in chars
    ensures n.Some? ==> forall k | n.value < k < |s| :: s[k] !in chars
  {
    if |s| == 0 then None
    else if s[|s| - 1] in chars then Some(|s| - 1)
    else FindLastOf(s[..|s| - 1], chars)
  }

  /** splitByChars: the maximal runs of s free of splitChars, in order,
      found by peeling the last separator off the end. */
  function SplitByChars(s: string, splitChars: string): seq<string>
    decreases |s|
  {
    match FindLastOf(s, splitChars)
    case None => if |s| == 0 then [] else [s]
    case Some(n) =>
      if n == |s| - 1 then SplitByChars(s[..|s| - 1], splitChars)
      else SplitByChars(s[..n], splitChars) + [s[n + 1..]]
  }

  /** The characters of s that are not separators, in order. */
  function Without(s: string, splitChars: string): string {
    if |s| == 0 then []
    else Without(s[..|s| - 1], splitChars) + (if s[|s| - 1] in splitChars then [] else [s[|s| - 1]])
  }

  /** The tokens written one after the other. */
  function Concat(ts: seq<string>): string {
    if |ts| == 0 then [] else Concat(ts[..|ts| - 1]) + ts[|ts| - 1]
  }

  /** t holds none of chars. */
  predicate NoSeparator(t: string, chars: string) {
    forall k | 0 <= k < |t| :: t[k] !in chars
  }

  /** No token holds a separator. */
  lemma {:induction false} SplitTokensHaveNoSeparator(s: string, splitChars: string)
    ensures forall t | t in SplitByChars(s, splitChars) :: NoSeparator(t, splitChars)
    decreases |s|
  {
    match FindLastOf(s, splitChars)
    case None =>
    case Some(n) =>
      if n == |s| - 1 {
        assert SplitByChars(s, splitChars) == SplitByChars(s[..|s| - 1], splitChars);
        SplitTokensHaveNoSeparator(s[..|s| - 1], splitChars);
      } else {
        SplitTokensHaveNoSeparator(s[..n], splitChars);
        assert SplitByChars(s, splitChars) == SplitByChars(s[..n], splitChars) + [s[n + 1..]];
        var tail := s[n + 1..];
        assert NoSeparator(tail, splitChars) by {
          forall k | 0 <= k < |tail| ensures tail[k] !in splitChars {
            assert tail[k] == s[n + 1 + k];
          }
        }
      }
  }

  /** No token is empty: leading, trailing and repeated separators yield nothing. */
  lemma {:induction false} SplitTokensNonEmpty(s: string, splitChars: string)
    ensures forall t | t in SplitByChars(s, splitChars) :: |t| > 0
    decreases |s|
  {
    match FindLastOf(s, splitChars)
    case None =>
    case Some(n) =>
      if n == |s| - 1 {
        assert SplitByChars(s, splitChars) == SplitByChars(s[..|s| - 1], splitChars);
        SplitTokensNonEmpty(s[..|s| - 1], splitChars);
      } else {
        assert SplitByChars(s, splitChars) == SplitByChars(s[..n], splitChars) + [s[n + 1..]];
        SplitTokensNonEmpty(s[..n], splitChars);
      }
  }

  lemma {:induction false} WithoutAppend(a: string, b: string, splitChars: string)
    ensures Without(a + b, splitChars) == Without(a, splitChars) + Without(b, splitChars)
    decreases |b|
  {
    if |b| == 0 {
      assert a + b == a;
    } else {
      var b' := b[..|b| - 1];
      assert (a + b)[..|a + b| - 1] == a + b';
      WithoutAppend(a, b', splitChars);
    }
  }

  lemma {:induction false} WithoutClean(s: string, splitChars: string)
    requires NoSeparator(s, splitChars)
    ensures Without(s, splitChars) == s
    decreases |s|
  {
    if |s| > 0 {
      WithoutClean(s[..|s| - 1], splitChars);
    }
  }

  /** Reading the tokens in order gives back s with its separators removed. */
  lemma {:induction false} SplitConcatIsWithout(s: string, splitChars: string)
    ensures Concat(SplitByChars(s, splitChars)) == Without(s, splitChars)
    decreases |s|
  {
    match FindLastOf(s, splitChars)
    case None =>
      WithoutClean(s, splitChars);
      if |s| > 0 {
        assert Concat([s]) == Concat([]) + s;
      }
    case Some(n) =>
      if n == |s| - 1 {
        SplitConcatIsWithout(s[..|s| - 1], splitChars);
      } else {
        SplitConcatIsWithout(s[..n], splitChars);
        var front := SplitByChars(s[..n], splitChars);
        var tail := s[n + 1..];
        var ts := front + [tail];
        assert ts[..|ts| - 1] == front;
        assert Concat(ts) == Concat(front) + tail;
        assert s == s[..n] + [s[n]] + tail;
        WithoutAppend(s[..n] + [s[n]], tail, splitChars);
        WithoutAppend(s[..n], [s[n]], splitChars);
        assert Without([s[n]], splitChars) == [] by {
          assert [s[n]][..0] == [];
        }
        WithoutClean(tail, splitChars);
      }
  }

  /** A string with no separator is one token, or none when it is empty. */
  lemma SplitWithoutSeparator(s: string, splitChars: string)
    requires NoSeparator(s, splitChars)
    ensures SplitByChars(s, splitChars) == if |s| == 0 then [] else [s]
  {
  }

  /** find_last_of on a concatenation: the last separator of y when y has one,
      shifted past x, and otherwise the last separator of x. */
  lemma {:induction false} FindLastOfAppend(x: string, y: string, chars: string)
    ensures FindLastOf(x + y, chars) ==
      match FindLastOf(y, chars)
      case Some(m) => Some(|x| + m)
      case None => FindLastOf(x, chars)
    decreases |y|
  {
    if |y| == 0 {
      assert x + y == x;
    } else if y[|y| - 1] !in chars {
      assert (x + y)[..|x + y| - 1] == x + y[..|y| - 1];
      FindLastOfAppend(x, y[..|y| - 1], chars);
    }
  }

  /** The last separator of a + [c] + b when b has none is c itself. */
  lemma LastSeparatorIsC(a: string, c: char, b: string, splitChars: string)
    requires c in splitChars
    requires FindLastOf(b, splitChars).None?
    ensures FindLastOf(a + [c] + b, splitChars) == Some(|a|)
  {
    FindLastOfAppend(a + [c], b, splitChars);
    FindLastOfAppend(a, [c], splitChars);
    assert FindLastOf([c], splitChars) == Some(0);
  }

  /** A separator splits the string in two: the tokens of s are the tokens
      before it followed by the tokens after it. With SplitWithoutSeparator
      this fixes SplitByChars on every input. */
  lemma {:induction false} SplitAtSeparator(a: string, c: char, b: string, splitChars: string)
    requires c in splitChars
    ensures SplitByChars(a + [c] + b, splitChars) ==
      SplitByChars(a, splitChars) + SplitByChars(b, splitChars)
    decreases |b|
  {
    var s := a + [c] + b;
    var last := FindLastOf(b, splitChars);
    if last.None? {
      LastSeparatorIsC(a, c, b, splitChars);
      if |b| == 0 {
        assert s[..|s| - 1] == a;
      } else {
        assert s[..|a|] == a && s[|a| + 1..] == b;
      }
    } else {
      var m := last.value;
      FindLastOfAppend(a + [c], b, splitChars);
      assert FindLastOf(s, splitChars) == Some(|a| + 1 + m);
      if m == |b| - 1 {
        SplitAtTrailingSeparator(a, c, b, splitChars);
      } else {
        SplitAtInnerSeparator(a, c, b, m, splitChars);
      }
    }
  }

  /** A step of SplitAtSeparator: b ends in a separator, which both sides drop. */
  lemma {:induction false} SplitAtTrailingSeparator(a: string, c: char, b: string, splitChars: string)
    requires c in splitChars
    requires |b| > 0 && FindLastOf(b, splitChars) == Some(|b| - 1)
    requires FindLastOf(a + [c] + b, splitChars) == Some(|a| + |b|)
    ensures SplitByChars(a + [c] + b, splitChars) ==
      SplitByChars(a, splitChars) + SplitByChars(b, splitChars)
    decreases |b|, 0
  {
    var s := a + [c] + b;
    var b' := b[..|b| - 1];
    assert s[..|s| - 1] == a + [c] + b';
    SplitAtSeparator(a, c, b', splitChars);
  }

  /** A step of SplitAtSeparator: b's last separator, at m, is followed by the
      last token of both sides. */
  lemma {:induction false} SplitAtInnerSeparator(a: string, c: char, b: string, m: nat, splitChars: string)
    requires c in splitChars
    requires m < |b| - 1 && FindLastOf(b, splitChars) == Some(m)
    requires FindLastOf(a + [c] + b, splitChars) == Some(|a| + 1 + m)
    ensures SplitByChars(a + [c] + b, splitChars) ==
      SplitByChars(a, splitChars) + SplitByChars(b, splitChars)
    decreases |b|, 0
  {
    var s := a + [c] + b;
    var n := |a| + 1 + m;
    var b' := b[..m];
    var t := b[m + 1..];
    assert s[..n] == a + [c] + b';
    assert s[n + 1..] == t;
    SplitAtInner(s, n, splitChars);
    SplitAtInner(b, m, splitChars);
    SplitAtSeparator(a, c, b', splitChars);
  }

  /** One unfolding of SplitByChars at a last separator that is not the last character. */
  lemma SplitAtInner(s: string, n: nat, splitChars: string)
    requires n < |s| - 1 && FindLastOf(s, splitChars) == Some(n)
    ensures SplitByChars(s, splitChars) == SplitByChars(s[..n], splitChars) + [s[n + 1..]]
  {
  }

  // ---------------------------------------------------------------------
  // toDoubles / toInts. Both loop over the strings and push every value the
  // library parser (std::stod, std::stoi) accepts; `parse` stands for that parser.

  /** The values of the parseable entries of v, in their order. */
  function Parsed<T>(v: seq<string>, parse: string -> Option<T>): seq<T> {
    if |v| == 0 then []
    else Parsed(v[..|v| - 1], parse) + (match parse(v[|v| - 1]) case Some(x) => [x] case None => [])
  }

  predicate AllParse<T>(v: seq<string>, parse: string -> Option<T>) {
    forall k | 0 <= k < |v| :: parse(v[k]).Some?
  }

  /** toDoubles / toInts: lenient mode keeps exactly the parseable entries;
      with requireAll set the first unparseable entry raises the parser's exception. */
  method ToNumbers<T>(v: seq<string>, requireAll: bool, parse: string -> Option<T>) returns (r: Result<seq<T>, UtilityError>)
    ensures requireAll && !AllParse(v, parse) ==> r == Failure(NotANumber)
    ensures !requireAll || AllParse(v, parse) ==> r == Success(Parsed(v, parse))
  {
    var values := [];
    var i := 0;
    while i < |v|
      invariant 0 <= i <= |v|
      invariant values == Parsed(v[..i], parse)
      invariant requireAll ==> AllParse(v[..i], parse)
    {
      assert v[..i + 1][..i] == v[..i];
      match parse(v[i]) {
        case Some(x) =>
          values := values + [x];
        case None =>
          if requireAll {
            return Failure(NotANumber);
          }
      }
      i := i + 1;
    }
    assert v[..|v|] == v;
    return Success(values);
  }

  /** Parsing distributes over concatenation, so the input order is kept. */
  lemma {:induction false} ParsedAppend<T>(a: seq<string>, b: seq<string>, parse: string -> Option<T>)
    ensures Parsed(a + b, parse) == Parsed(a, parse) + Parsed(b, parse)
    decreases |b|
  {
    if |b| == 0 {
      assert a + b == a;
    } else {
      var b' := b[..|b| - 1];
      assert (a + b)[..|a + b| - 1] == a + b';
      ParsedAppend(a, b', parse);
    }
  }

  /** When every entry parses, the result holds each entry's value at its own position. */
  lemma {:induction false} ParsedAllInOrder<T>(v: seq<string>, parse: string -> Option<T>)
    requires AllParse(v, parse)
    ensures |Parsed(v, parse)| == |v|
    ensures forall k | 0 <= k < |v| :: Parsed(v, parse)[k] == parse(v[k]).value
    decreases |v|
  {
    if |v| > 0 {
      var v' := v[..|v| - 1];
      assert AllParse(v', parse) by {
        forall k | 0 <= k < |v'| ensures parse(v'[k]).Some? {
          assert v'[k] == v[k];
        }
      }
      ParsedAllInOrder(v', parse);
    }
  }
}
