/**
  Shader keywords: the `#define` prefix that `addKeywords` prepends to a
  fragment shader, and the cache key `Material.setKeywords` derives from a
  keyword list (the sum of the keywords' `hashCode`s).
 */
module ShaderKeywords {
  import opened Common
  import opened Hashing

  const DefinePrefix: string := "#define "

  /** One line `#define <keyword>\n`. */
  function DefineLine(keyword: string): string {
    DefinePrefix + keyword + "\n"
  }

  /** The concatenation of the define lines of all keywords, in order
      (the `forEach` accumulation in `addKeywords`). */
  function Defines(keywords: seq<string>): string
  {
    if |keywords| == 0 then "" else DefineLine(keywords[0]) + Defines(keywords[1..])
  }

  /** `addKeywords(source, keywords)`: an absent keyword list leaves the
      source alone; otherwise the define lines come first, the source after. */
  function AddKeywords(source: string, keywords: Option<seq<string>>): (r: string)
    ensures keywords.None? ==> r == source
    ensures keywords.Some? ==> |r| == |Defines(keywords.value)| + |source|
    ensures r[|r| - |source|..] == source
    ensures keywords.Some? ==> r[..|r| - |source|] == Defines(keywords.value)
  {
    match keywords
    case None => source
    case Some(ks) => Defines(ks) + source
  }

  /** True when no keyword contains a line break (so every define line is
      one line). */
  predicate SingleLine(keywords: seq<string>) {
    forall i :: 0 <= i < |keywords| ==> '\n' !in keywords[i]
  }

  /** The index of the first line break in `s`, if any. */
  function LineEnd(s: string): (r: Option<nat>)
    ensures r.Some? ==> r.value < |s| && s[r.value] == '\n' && '\n' !in s[..r.value]
    ensures r.None? ==> '\n' !in s
  {
    if |s| == 0 then None
    else if s[0] == '\n' then Some(0)
    else
      match LineEnd(s[1..])
      case None => None
      case Some(k) => Some(k + 1)
  }

  /** Reads a block of define lines back into the keyword list; fails on
      anything that is not a sequence of `#define <keyword>\n` lines. */
  function ParseDefines(text: string): Option<seq<string>>
    decreases |text|
  {
    if |text| == 0 then Some([])
    else if |text| < |DefinePrefix| || text[..|DefinePrefix|] != DefinePrefix then None
    else
      var rest := text[|DefinePrefix|..];
      match LineEnd(rest)
      case None => None
      case Some(k) =>
        match ParseDefines(rest[k + 1..])
        case None => None
        case Some(ks) => Some([rest[..k]] + ks)
  }

  /** The first line break of `k + "\n" + tail` is right after `k` when `k`
      is a single line. */
  lemma {:induction false} LineEndAfterKeyword(k: string, tail: string)
    requires '\n' !in k
    ensures LineEnd(k + "\n" + tail) == Some(|k|)
  {
    if |k| == 0 {
      assert (k + "\n" + tail)[0] == '\n';
    } else {
      assert (k + "\n" + tail)[1..] == k[1..] + "\n" + tail;
      assert '\n' !in k[1..];
      LineEndAfterKeyword(k[1..], tail);
    }
  }

  /** Round trip: the define block `addKeywords` builds reads back as the
      same keyword list, in the same order. */
  lemma {:induction false} ParseDefinesRoundTrip(keywords: seq<string>)
    requires SingleLine(keywords)
    ensures ParseDefines(Defines(keywords)) == Some(keywords)
  {
    if |keywords| > 0 {
      var k := keywords[0];
      var tail := Defines(keywords[1..]);
      var text := Defines(keywords);
      assert text == DefinePrefix + (k + "\n" + tail);
      assert text[..|DefinePrefix|] == DefinePrefix;
      var rest := text[|DefinePrefix|..];
      assert rest == k + "\n" + tail;
      LineEndAfterKeyword(k, tail);
      assert rest[|k| + 1..] == tail;
      assert rest[..|k|] == k;
      assert SingleLine(keywords[1..]) by {
        forall i | 0 <= i < |keywords[1..]|
          ensures '\n' !in keywords[1..][i]
        {
          assert keywords[1..][i] == keywords[i + 1];
        }
      }
      ParseDefinesRoundTrip(keywords[1..]);
      assert [k] + keywords[1..] == keywords;
    }
  }

  /** The cache key of a keyword list: `hash += hashCode(keywords[i])` over
      the list. The sum is an ordinary JavaScript number, not reduced to 32
      bits. */
  function KeywordHash(keywords: seq<string>): int
  {
    SumOf(keywords, HashCode)
  }

  /** `h` summed over a list, from the front. */
  function SumOf(keywords: seq<string>, h: string -> int): int
  {
    if |keywords| == 0 then 0
    else SumOf(keywords[..|keywords| - 1], h) + h(keywords[|keywords| - 1])
  }

  /** The sum over a concatenation is the sum of the sums. */
  lemma {:induction false} SumOfAppend(a: seq<string>, b: seq<string>, h: string -> int)
    ensures SumOf(a + b, h) == SumOf(a, h) + SumOf(b, h)
    decreases |b|
  {
    if |b| == 0 {
      assert a + b == a;
    } else {
      var b' := b[..|b| - 1];
      assert (a + b)[..|a + b| - 1] == a + b';
      SumOfAppend(a, b', h);
    }
  }

  /** The sum does not depend on the order of the list. */
  lemma {:induction false} SumOfPermutation(a: seq<string>, b: seq<string>, h: string -> int)
    requires multiset(a) == multiset(b)
    ensures SumOf(a, h) == SumOf(b, h)
    decreases |a|
  {
    if |a| == 0 {
      assert |b| == |multiset(b)| == 0;
    } else {
      var x := a[|a| - 1];
      var a' := a[..|a| - 1];
      assert a == a' + [x];
      assert x in multiset(b);
      var j :| 0 <= j < |b| && b[j] == x;
      MultisetRemove(a', x, b, j);
      SumOfPermutation(a', b[..j] + b[j + 1..], h);
      SumOfRemove(b, j, h);
    }
  }

  /** Taking the same element out of two equal multisets. */
  lemma MultisetRemove(a': seq<string>, x: string, b: seq<string>, j: int)
    requires 0 <= j < |b| && b[j] == x
    requires multiset(a' + [x]) == multiset(b)
    ensures multiset(a') == multiset(b[..j] + b[j + 1..])
  {
    var b' := b[..j] + b[j + 1..];
    assert b == b[..j] + [x] + b[j + 1..];
    assert multiset(b) == multiset(b') + multiset{x};
    assert multiset(a' + [x]) == multiset(a') + multiset{x};
    assert multiset(a') == multiset(b') by {
      forall y
        ensures multiset(a')[y] == multiset(b')[y]
      {
        assert (multiset(a') + multiset{x})[y] == (multiset(b') + multiset{x})[y];
      }
    }
  }

  /** Removing one element takes its term out of the sum. */
  lemma SumOfRemove(b: seq<string>, j: int, h: string -> int)
    requires 0 <= j < |b|
    ensures SumOf(b, h) == SumOf(b[..j] + b[j + 1..], h) + h(b[j])
  {
    SplitAt(b, j);
    SumOfSplit(b[..j], b[j], b[j + 1..], h);
  }

  lemma SplitAt(b: seq<string>, j: int)
    requires 0 <= j < |b|
    ensures b == b[..j] + [b[j]] + b[j + 1..]
  {
  }

  lemma SumOfSplit(front: seq<string>, x: string, back: seq<string>, h: string -> int)
    ensures SumOf(front + [x] + back, h) == SumOf(front + back, h) + h(x)
  {
    SumOfAppend(front + [x], back, h);
    SumOfAppend(front, [x], h);
    SumOfAppend(front, back, h);
    assert [x][..0] == [];
  }

  /** The cache key does not depend on the order of the keywords: lists
      that are permutations of each other select the same cached program. */
  lemma KeywordHashPermutation(a: seq<string>, b: seq<string>)
    requires multiset(a) == multiset(b)
    ensures KeywordHash(a) == KeywordHash(b)
  {
    SumOfPermutation(a, b, HashCode);
  }
}
