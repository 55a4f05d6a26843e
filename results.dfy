/**
 * The summary script ann/cmd/accuracy/res.py: for each result directory it
 * reads results.txt line by line, takes the configuration from the first
 * `{...}` line, the hit rates from the `Hits:` lines and the distance ratios
 * from the `[...]` lines, and writes one CSV row holding the configuration
 * columns, the 95th centile of the positive ratios and the hit rates.
 *
 * Strings are sequences of characters. Python's float() and str() of a
 * float are inputs (`parse`, `show`); the directory listing and the file
 * contents are inputs, a missing file being the IOError the script skips.
 */
module Results {
  import opened Wrappers
  import opened Floats

  // ---------------------------------------------------------------------
  // Python string operations
  // ---------------------------------------------------------------------

  /** s.split(sep) with a one-character separator: the pieces between separators, empty ones included. */
  function Split(s: string, sep: char): (pieces: seq<string>)
    ensures |pieces| >= 1
  {
    if |s| == 0 then [""]
    else
      var rest := Split(s[1..], sep);
      if s[0] == sep then [""] + rest else [[s[0]] + rest[0]] + rest[1..]
  }

  /** sep.join(pieces); the empty list joins to "". */
  function JoinWith(pieces: seq<string>, sep: string): string
  {
    if |pieces| == 0 then "" else if |pieces| == 1 then pieces[0] else pieces[0] + sep + JoinWith(pieces[1..], sep)
  }

  /** Splitting loses nothing: joining the pieces gives s back, and no piece holds the separator. */
  lemma {:induction false} SplitJoin(s: string, sep: char)
    ensures JoinWith(Split(s, sep), [sep]) == s
    ensures forall i :: 0 <= i < |Split(s, sep)| ==> sep !in Split(s, sep)[i]
  {
    if |s| > 0 {
      SplitJoin(s[1..], sep);
      var rest := Split(s[1..], sep);
      if s[0] == sep {
        assert Split(s, sep)[1..] == rest;
      } else {
        var ps := Split(s, sep);
        assert ps[1..] == rest[1..];
        if |rest| > 1 {
          assert rest[1..] == Split(s[1..], sep)[1..];
        }
        forall i | 0 <= i < |ps| ensures sep !in ps[i] {
          if i > 0 {
            assert ps[i] == rest[i];
          }
        }
      }
    }
  }

  /** s.replace(c, ""): s without any c. */
  function Remove(s: string, c: char): (r: string)
    ensures |r| <= |s|
  {
    if |s| == 0 then [] else (if s[0] == c then [] else [s[0]]) + Remove(s[1..], c)
  }

  /** Remove drops exactly the c's: what is left is every other character of s, in order. */
  lemma {:induction false} RemoveExactly(s: string, c: char, x: char)
    ensures x in Remove(s, c) <==> x in s && x != c
    ensures multiset(Remove(s, c))[x] == if x == c then 0 else multiset(s)[x]
  {
    if |s| > 0 {
      RemoveExactly(s[1..], c, x);
      assert s == [s[0]] + s[1..];
    }
  }

  /** The characters Python's str.isspace() accepts. */
  predicate IsSpace(ch: char)
  {
    var n := ch as int;
    (9 <= n <= 13) || (28 <= n <= 32) || n == 0x85 || n == 0xA0 || n == 0x1680 ||
    (0x2000 <= n <= 0x200A) || n == 0x2028 || n == 0x2029 || n == 0x202F || n == 0x205F || n == 0x3000
  }

  /** The number of whitespace characters s starts with. */
  function Leading(s: string): (n: nat)
    ensures n <= |s|
  {
    if |s| > 0 && IsSpace(s[0]) then 1 + Leading(s[1..]) else 0
  }

  /** The number of whitespace characters s ends with. */
  function Trailing(s: string): (n: nat)
    ensures n <= |s|
  {
    if |s| > 0 && IsSpace(s[|s| - 1]) then 1 + Trailing(s[..|s| - 1]) else 0
  }

  function StripLeft(s: string): string
  {
    s[Leading(s)..]
  }

  function StripRight(s: string): string
  {
    s[..|s| - Trailing(s)]
  }

  /** s.strip(). */
  function Strip(s: string): string
  {
    StripRight(StripLeft(s))
  }

  predicate AllSpace(s: string)
  {
    forall k :: 0 <= k < |s| ==> IsSpace(s[k])
  }

  lemma {:induction false} LeadingSpaces(s: string)
    ensures AllSpace(s[..Leading(s)]) && (Leading(s) < |s| ==> !IsSpace(s[Leading(s)]))
  {
    if |s| > 0 && IsSpace(s[0]) {
      LeadingSpaces(s[1..]);
      assert s[..Leading(s)] == [s[0]] + s[1..][..Leading(s[1..])];
    }
  }

  lemma {:induction false} TrailingSpaces(s: string)
    ensures AllSpace(s[|s| - Trailing(s)..]) && (Trailing(s) < |s| ==> !IsSpace(s[|s| - Trailing(s) - 1]))
  {
    if |s| > 0 && IsSpace(s[|s| - 1]) {
      var t := s[..|s| - 1];
      TrailingSpaces(t);
      assert s[|s| - Trailing(s)..] == t[|t| - Trailing(t)..] + [s[|s| - 1]];
    }
  }

  /**
   * strip() removes whitespace at both ends and nothing else: the result is
   * a slice s[i..j] with only whitespace outside it, and it neither starts
   * nor ends with whitespace.
   */
  lemma StripSlice(s: string)
    ensures var r := Strip(s);
      (|r| > 0 ==> !IsSpace(r[0]) && !IsSpace(r[|r| - 1])) &&
      exists i, j :: 0 <= i <= j <= |s| && r == s[i..j] && AllSpace(s[..i]) && AllSpace(s[j..])
  {
    LeadingSpaces(s);
    var i := Leading(s);
    var l := s[i..];
    TrailingSpaces(l);
    var j := |s| - Trailing(l);
    assert Strip(s) == s[i..j];
    assert s[j..] == l[|l| - Trailing(l)..];
  }

  /** s.startswith(p). */
  predicate StartsWith(s: string, p: string)
  {
    |p| <= |s| && s[..|p|] == p
  }

  // ---------------------------------------------------------------------
  // ReadDic
  // ---------------------------------------------------------------------

  /** The (key, value) of one token: braces removed, split on ':', both sides stripped; None when there is no ':'. */
  function Entry(p: string): (e: Option<(string, string)>)
  {
    var parts := Split(Remove(Remove(p, '{'), '}'), ':');
    if |parts| < 2 then None else Some((Strip(parts[0]), Strip(parts[1])))
  }

  /** The entries of the tokens, in order. */
  function Entries(tokens: seq<string>): seq<Option<(string, string)>>
  {
    seq(|tokens|, i requires 0 <= i < |tokens| => Entry(tokens[i]))
  }

  /** The dictionary built from the entries in order, a later key overwriting an earlier one; None on an IndexError. */
  function Build(es: seq<Option<(string, string)>>): Option<map<string, string>>
  {
    if |es| == 0 then Some(map[])
    else
      match (Build(es[..|es| - 1]), es[|es| - 1])
      case (Some(d), Some(e)) => Some(d[e.0 := e.1])
      case _ => None
  }

  /** What ReadDic(s) returns. */
  function DicOf(s: string): Option<map<string, string>>
  {
    Build(Entries(Split(s, ' ')))
  }

  /** ReadDic succeeds exactly when every token has a ':'. */
  lemma {:induction false} BuildSucceeds(es: seq<Option<(string, string)>>)
    ensures Build(es).Some? <==> forall i :: 0 <= i < |es| ==> es[i].Some?
  {
    if |es| > 0 {
      BuildSucceeds(es[..|es| - 1]);
      assert forall i :: 0 <= i < |es| - 1 ==> es[..|es| - 1][i] == es[i];
    }
  }

  /** The keys of the dictionary are exactly the tokens' keys. */
  lemma {:induction false} BuildKeys(es: seq<Option<(string, string)>>, k: string)
    requires Build(es).Some?
    ensures k in Build(es).value <==> exists i :: 0 <= i < |es| && es[i].Some? && es[i].value.0 == k
  {
    if |es| > 0 {
      var init := es[..|es| - 1];
      BuildKeys(init, k);
      assert forall i :: 0 <= i < |init| ==> init[i] == es[i];
    }
  }

  /** Each key maps to the value of the last token that carries it. */
  lemma {:induction false} BuildLastWins(es: seq<Option<(string, string)>>, i: nat)
    requires Build(es).Some? && i < |es| && es[i].Some?
    requires forall j :: i < j < |es| && es[j].Some? ==> es[j].value.0 != es[i].value.0
    ensures es[i].value.0 in Build(es).value && Build(es).value[es[i].value.0] == es[i].value.1
  {
    var init := es[..|es| - 1];
    if i < |init| {
      assert forall j :: i < j < |init| ==> init[j] == es[j];
      BuildLastWins(init, i);
    }
  }

  /** ReadDic(s): the dictionary of the space-separated tokens of s. */
  method ReadDic(s: string) returns (d: Option<map<string, string>>)
    ensures d == DicOf(s)
  {
    var pairs := Split(s, ' ');
    ghost var es := Entries(pairs);
    var m: map<string, string> := map[];
    for i := 0 to |pairs|
      invariant Build(es[..i]) == Some(m)
    {
      var p := Remove(Remove(pairs[i], '{'), '}');
      var parts := Split(p, ':');
      assert es[..i + 1][..i] == es[..i] && es[i] == Entry(pairs[i]);
      if |parts| < 2 {
        BuildSucceeds(es);
        return None;
      }
      m := m[Strip(parts[0]) := Strip(parts[1])];
    }
    assert es[..|pairs|] == es;
    d := Some(m);
  }

  /** A dictionary line always has at least one entry, so `not cur` is false once cur is set. */
  lemma DicNonEmpty(s: string)
    requires DicOf(s).Some?
    ensures |DicOf(s).value| > 0
  {
    var es := Entries(Split(s, ' '));
    BuildSucceeds(es);
    BuildKeys(es, es[0].value.0);
  }

  // ---------------------------------------------------------------------
  // ReadArr
  // ---------------------------------------------------------------------

  /** z != 0, which NaN and the infinities satisfy. */
  predicate NonZero(z: Float)
  {
    !(z.Finite? && z.v == 0.0)
  }

  /** x > 0, which NaN does not satisfy. */
  predicate Positive(x: Float)
  {
    x.PosInf? || (x.Finite? && x.v > 0.0)
  }

  /** float(): the value of a stripped token, None on a ValueError. */
  type Parser = string -> Option<Float>

  /** float() of each token with its brackets removed and stripped; None for a token that is not a number. */
  function Parsed(words: seq<string>, parse: Parser): seq<Option<Float>>
  {
    seq(|words|, i requires 0 <= i < |words| => parse(Strip(Remove(Remove(words[i], '['), ']'))))
  }

  /** The loop of ReadArr over the parsed tokens: the non-zero values in order; None at the first ValueError. */
  function Keep(zs: seq<Option<Float>>): Option<seq<Float>>
  {
    if |zs| == 0 then Some([])
    else
      match (Keep(zs[..|zs| - 1]), zs[|zs| - 1])
      case (Some(a), Some(z)) => Some(if NonZero(z) then a + [z] else a)
      case _ => None
  }

  /** What ReadArr(a) returns. */
  function ArrOf(a: string, parse: Parser): Option<seq<Float>>
  {
    Keep(Parsed(Split(a, ' '), parse))
  }

  /** The non-zero elements of xs, in order. */
  function NonZeros(xs: seq<Float>): seq<Float>
  {
    if |xs| == 0 then [] else NonZeros(xs[..|xs| - 1]) + (if NonZero(xs[|xs| - 1]) then [xs[|xs| - 1]] else [])
  }

  /** The values of parses that all succeeded. */
  function Values(zs: seq<Option<Float>>): (xs: seq<Float>)
    requires forall i :: 0 <= i < |zs| ==> zs[i].Some?
    ensures |xs| == |zs|
  {
    seq(|zs|, i requires 0 <= i < |zs| => zs[i].value)
  }

  /**
   * ReadArr succeeds exactly when every token parses, and then returns the
   * parsed values with exactly the zeros dropped: negatives and NaN stay.
   */
  lemma {:induction false} KeepValues(zs: seq<Option<Float>>)
    ensures Keep(zs).Some? <==> forall i :: 0 <= i < |zs| ==> zs[i].Some?
    ensures Keep(zs).Some? ==> Keep(zs).value == NonZeros(Values(zs))
  {
    if |zs| > 0 {
      var init := zs[..|zs| - 1];
      KeepValues(init);
      assert forall i :: 0 <= i < |init| ==> zs[i] == init[i];
      if Keep(zs).Some? {
        assert Values(zs)[..|init|] == Values(init);
      }
    }
  }

  /** NonZeros keeps every non-zero value and nothing else. */
  lemma {:induction false} NonZerosMembers(xs: seq<Float>, x: Float)
    ensures x in NonZeros(xs) <==> x in xs && NonZero(x)
  {
    if |xs| > 0 {
      NonZerosMembers(xs[..|xs| - 1], x);
      assert xs == xs[..|xs| - 1] + [xs[|xs| - 1]];
    }
  }

  /** ReadArr(a): the non-zero numbers of the space-separated tokens of a. */
  method ReadArr(a: string, parse: Parser) returns (arr: Option<seq<Float>>)
    ensures arr == ArrOf(a, parse)
  {
    var words := Split(a, ' ');
    ghost var zs := Parsed(words, parse);
    var out: seq<Float> := [];
    for i := 0 to |words|
      invariant Keep(zs[..i]) == Some(out)
    {
      var w := Remove(Remove(words[i], '['), ']');
      var z := parse(Strip(w));
      assert zs[..i + 1][..i] == zs[..i] && zs[i] == z;
      if z.None? {
        KeepValues(zs);
        return None;
      }
      if NonZero(z.value) {
        out := out + [z.value];
      }
    }
    assert zs[..|words|] == zs;
    arr := Some(out);
  }

  // ---------------------------------------------------------------------
  // One results file
  // ---------------------------------------------------------------------

  /** The positive elements of xs, in order: what `[x for x in a if x > 0]` keeps. */
  function Positives(xs: seq<Float>): (r: seq<Float>)
    ensures |r| <= |xs|
    ensures forall i :: 0 <= i < |r| ==> Positive(r[i])
  {
    if |xs| == 0 then [] else Positives(xs[..|xs| - 1]) + (if Positive(xs[|xs| - 1]) then [xs[|xs| - 1]] else [])
  }

  /** What the loop over a file's lines has gathered. */
  datatype Gathered = Gathered(cur: map<string, string>, hits: seq<string>, distances: seq<Float>, r: nat,
                               messages: seq<string>)

  const MultipleFormats: string := "Multiple formats in same result file"

  /** The `{` test of one line: the first dictionary becomes cur, a different later one only gives a message. */
  function ConfigLine(g: Gathered, line: string): Option<Gathered>
  {
    if !StartsWith(line, "{") then Some(g)
    else
      match DicOf(line)
      case None => None
      case Some(d) =>
        if |g.cur| == 0 then Some(g.(cur := d))
        else if d != g.cur then Some(g.(messages := g.messages + [MultipleFormats]))
        else Some(g)
  }

  /** The `Hits` test: the stripped text after the first ':'; an IndexError without one. */
  function HitsLine(g: Gathered, line: string): Option<Gathered>
  {
    if !StartsWith(line, "Hits") then Some(g)
    else
      var parts := Split(line, ':');
      if |parts| < 2 then None else Some(g.(hits := g.hits + [Strip(parts[1])]))
  }

  /** The `[` test: the positive values join the distances, r counts every value ReadArr returned. */
  function ArrayLine(g: Gathered, line: string, parse: Parser): Option<Gathered>
  {
    if !StartsWith(line, "[") then Some(g)
    else
      match ArrOf(line, parse)
      case None => None
      case Some(a) => Some(g.(distances := g.distances + Positives(a), r := g.r + |a|))
  }

  /** One line through the three tests, in the script's order. */
  function LineStep(g: Gathered, line: string, parse: Parser): Option<Gathered>
  {
    match ConfigLine(g, line)
    case None => None
    case Some(g1) =>
      match HitsLine(g1, line)
      case None => None
      case Some(g2) => ArrayLine(g2, line, parse)
  }

  /**
   * How the loop over a file's lines ends: having gathered g, or by an
   * exception, after printing the messages of the lines before it.
   */
  datatype Gathering = Completed(g: Gathered) | Raised(printed: seq<string>)

  /** The loop over the lines of a file, from an empty start. */
  function GatherLines(lines: seq<string>, parse: Parser): Gathering
  {
    if |lines| == 0 then Completed(Gathered(map[], [], [], 0, []))
    else
      match GatherLines(lines[..|lines| - 1], parse)
      case Raised(printed) => Raised(printed)
      case Completed(g) =>
        match LineStep(g, lines[|lines| - 1], parse)
        case None => Raised(g.messages)
        case Some(g') => Completed(g')
  }

  /** The number of lines that start with "Hits". */
  function HitsLines(lines: seq<string>): (n: nat)
    ensures n <= |lines|
  {
    if |lines| == 0 then 0
    else HitsLines(lines[..|lines| - 1]) + (if StartsWith(lines[|lines| - 1], "Hits") then 1 else 0)
  }

  /**
   * What the loop gathers: only positive distances, never more of them than
   * r counts, one hit rate per `Hits` line, and a configuration that is
   * empty only while no `{` line has been read.
   */
  lemma {:induction false} GatheredShape(lines: seq<string>, parse: Parser)
    requires GatherLines(lines, parse).Completed?
    ensures var g := GatherLines(lines, parse).g;
      |g.distances| <= g.r && (forall i :: 0 <= i < |g.distances| ==> Positive(g.distances[i])) &&
      |g.hits| == HitsLines(lines) &&
      (|g.cur| == 0 <==> forall i :: 0 <= i < |lines| ==> !StartsWith(lines[i], "{"))
  {
    if |lines| > 0 {
      var init := lines[..|lines| - 1];
      var line := lines[|lines| - 1];
      GatheredShape(init, parse);
      var g := GatherLines(init, parse).g;
      assert forall i :: 0 <= i < |init| ==> lines[i] == init[i];
      if StartsWith(line, "{") {
        DicNonEmpty(line);
      }
    }
  }

  /**
   * cur is the dictionary of the first `{` line: any later dictionary,
   * equal or not, leaves it as it is.
   */
  lemma {:induction false} CurIsFirst(lines: seq<string>, parse: Parser, k: nat)
    requires GatherLines(lines, parse).Completed?
    requires k < |lines| && StartsWith(lines[k], "{")
    requires forall i :: 0 <= i < k ==> !StartsWith(lines[i], "{")
    ensures DicOf(lines[k]).Some?
    ensures GatherLines(lines, parse).g.cur == DicOf(lines[k]).value
  {
    var init := lines[..|lines| - 1];
    assert forall i :: 0 <= i < |init| ==> lines[i] == init[i];
    if k < |init| {
      CurIsFirst(init, parse, k);
      DicNonEmpty(lines[k]);
    } else {
      GatheredShape(init, parse);
    }
  }

  /** Once a line raises, the rest of the file does not matter: nothing more is printed. */
  lemma {:induction false} GatherFailurePersists(lines: seq<string>, parse: Parser, i: nat)
    requires i <= |lines| && GatherLines(lines[..i], parse).Raised?
    ensures GatherLines(lines, parse) == GatherLines(lines[..i], parse)
    decreases |lines|
  {
    if i < |lines| {
      var init := lines[..|lines| - 1];
      assert init[..i] == lines[..i];
      GatherFailurePersists(init, parse, i);
    } else {
      assert lines[..i] == lines;
    }
  }

  /**
   * A line that raises ends the file with exactly the messages printed
   * for the lines before it, whatever follows.
   */
  lemma RaisedKeepsMessages(lines: seq<string>, parse: Parser, i: nat)
    requires i < |lines| && GatherLines(lines[..i], parse).Completed?
    requires GatherLines(lines[..i + 1], parse).Raised?
    ensures GatherLines(lines, parse).Raised?
    ensures GatherLines(lines, parse).printed == GatherLines(lines[..i], parse).g.messages
  {
    var upTo := GatherLines(lines[..i + 1], parse);
    assert upTo.printed == GatherLines(lines[..i], parse).g.messages by {
      RaisesAt(lines, parse, i);
    }
    assert GatherLines(lines, parse) == upTo by {
      GatherFailurePersists(lines, parse, i + 1);
    }
  }

  /** The loop up to and including a line that raises has printed what the earlier lines printed. */
  lemma RaisesAt(lines: seq<string>, parse: Parser, i: nat)
    requires i < |lines| && GatherLines(lines[..i], parse).Completed?
    requires GatherLines(lines[..i + 1], parse).Raised?
    ensures GatherLines(lines[..i + 1], parse).printed == GatherLines(lines[..i], parse).g.messages
  {
    var pre := lines[..i + 1];
    assert pre[..|pre| - 1] == lines[..i];
  }

  /** The `{` test, on the loop's variables. */
  method ReadConfig(g: Gathered, line: string) returns (g': Option<Gathered>)
    ensures g' == ConfigLine(g, line)
  {
    g' := Some(g);
    if StartsWith(line, "{") {
      var d := ReadDic(line);
      if d.None? {
        return None;
      }
      if |g.cur| == 0 {
        g' := Some(g.(cur := d.value));
      } else if d.value != g.cur {
        g' := Some(g.(messages := g.messages + [MultipleFormats]));
      }
    }
  }

  /** The `Hits` test, on the loop's variables. */
  method ReadHits(g: Gathered, line: string) returns (g': Option<Gathered>)
    ensures g' == HitsLine(g, line)
  {
    g' := Some(g);
    if StartsWith(line, "Hits") {
      var parts := Split(line, ':');
      if |parts| < 2 {
        return None;
      }
      g' := Some(g.(hits := g.hits + [Strip(parts[1])]));
    }
  }

  /** The `[` test, on the loop's variables. */
  method ReadDistances(g: Gathered, line: string, parse: Parser) returns (g': Option<Gathered>)
    ensures g' == ArrayLine(g, line, parse)
  {
    g' := Some(g);
    if StartsWith(line, "[") {
      var a := ReadArr(line, parse);
      if a.None? {
        return None;
      }
      g' := Some(g.(distances := g.distances + Positives(a.value), r := g.r + |a.value|));
    }
  }

  /** The loop over a file's lines (the body of the try block up to the sort). */
  method GatherFile(lines: seq<string>, parse: Parser) returns (g: Gathering)
    ensures g == GatherLines(lines, parse)
  {
    var cur := Gathered(map[], [], [], 0, []);
    for i := 0 to |lines|
      invariant GatherLines(lines[..i], parse) == Completed(cur)
    {
      var line := lines[i];
      assert lines[..i + 1][..i] == lines[..i] && lines[..i + 1][i] == line;
      var g1 := ReadConfig(cur, line);
      if g1.Some? {
        g1 := ReadHits(g1.value, line);
      }
      if g1.Some? {
        g1 := ReadDistances(g1.value, line, parse);
      }
      if g1.None? {
        // the messages of the earlier lines have been printed already
        GatherFailurePersists(lines, parse, i + 1);
        return Raised(cur.messages);
      }
      cur := g1.value;
    }
    assert lines[..|lines|] == lines;
    g := Completed(cur);
  }

  // ---------------------------------------------------------------------
  // The 95th centile
  // ---------------------------------------------------------------------

  /** The order of sort() on positive floats: numbers by value, +inf last. */
  predicate Le(a: Float, b: Float)
  {
    b.PosInf? || (a.Finite? && b.Finite? && a.v <= b.v)
  }

  predicate SortedFloats(xs: seq<Float>)
  {
    forall i, j :: 0 <= i < j < |xs| ==> Le(xs[i], xs[j])
  }

  /** x placed into sorted xs before the first element above it. */
  function Insert(x: Float, xs: seq<Float>): (r: seq<Float>)
    ensures |r| == |xs| + 1
  {
    if |xs| == 0 then [x]
    else if Le(x, xs[0]) then [x] + xs
    else [xs[0]] + Insert(x, xs[1..])
  }

  /** distances.sort(). */
  function Sort(xs: seq<Float>): (r: seq<Float>)
    ensures |r| == |xs|
  {
    if |xs| == 0 then [] else Insert(xs[|xs| - 1], Sort(xs[..|xs| - 1]))
  }

  /** Insert adds x and keeps everything else. */
  lemma {:induction false} InsertPermutes(x: Float, xs: seq<Float>)
    ensures multiset(Insert(x, xs)) == multiset(xs) + multiset{x}
  {
    if |xs| > 0 && !Le(x, xs[0]) {
      InsertPermutes(x, xs[1..]);
      assert xs == [xs[0]] + xs[1..];
    }
  }

  /** Sort only rearranges. */
  lemma {:induction false} SortPermutes(xs: seq<Float>)
    ensures multiset(Sort(xs)) == multiset(xs)
  {
    if |xs| > 0 {
      SortPermutes(xs[..|xs| - 1]);
      InsertPermutes(xs[|xs| - 1], Sort(xs[..|xs| - 1]));
      assert xs == xs[..|xs| - 1] + [xs[|xs| - 1]];
    }
  }

  /** Everything in Insert(x, xs) is x or comes from xs. */
  lemma {:induction false} InsertFrom(x: Float, xs: seq<Float>)
    ensures forall i :: 0 <= i < |Insert(x, xs)| ==> Insert(x, xs)[i] == x || Insert(x, xs)[i] in xs
  {
    if |xs| > 0 && !Le(x, xs[0]) {
      InsertFrom(x, xs[1..]);
      var r := Insert(x, xs);
      forall i | 0 < i < |r| ensures r[i] == x || r[i] in xs {
        assert r[i] == Insert(x, xs[1..])[i - 1];
      }
    }
  }

  lemma SortedCons(a: Float, tail: seq<Float>)
    requires SortedFloats(tail) && forall j :: 0 <= j < |tail| ==> Le(a, tail[j])
    ensures SortedFloats([a] + tail)
  {
    var r := [a] + tail;
    forall i, j | 0 <= i < j < |r| ensures Le(r[i], r[j]) {
      assert r[j] == tail[j - 1];
      if i > 0 {
        assert r[i] == tail[i - 1];
      }
    }
  }

  /** Inserting a positive value into sorted positive values keeps them sorted. */
  lemma {:induction false} InsertSorted(x: Float, xs: seq<Float>)
    requires Positive(x) && SortedFloats(xs) && forall i :: 0 <= i < |xs| ==> Positive(xs[i])
    ensures SortedFloats(Insert(x, xs)) && forall i :: 0 <= i < |Insert(x, xs)| ==> Positive(Insert(x, xs)[i])
  {
    InsertFrom(x, xs);
    if |xs| == 0 {
    } else if Le(x, xs[0]) {
      SortedCons(x, xs);
    } else {
      var rest := xs[1..];
      InsertSorted(x, rest);
      InsertFrom(x, rest);
      var tail := Insert(x, rest);
      forall j | 0 <= j < |tail| ensures Le(xs[0], tail[j]) {
        if tail[j] != x {
          var k :| 0 <= k < |rest| && rest[k] == tail[j];
          assert xs[k + 1] == tail[j];
        }
      }
      SortedCons(xs[0], tail);
    }
  }

  /** Sort orders the positive distances and only rearranges them. */
  lemma {:induction false} SortSorted(xs: seq<Float>)
    requires forall i :: 0 <= i < |xs| ==> Positive(xs[i])
    ensures SortedFloats(Sort(xs)) && forall i :: 0 <= i < |Sort(xs)| ==> Positive(Sort(xs)[i])
  {
    if |xs| > 0 {
      SortSorted(xs[..|xs| - 1]);
      InsertSorted(xs[|xs| - 1], Sort(xs[..|xs| - 1]));
    }
  }

  /** int(x): truncation toward zero of the rational q / 100. */
  function TruncDiv100(q: int): int
  {
    if q >= 0 then q / 100 else -((-q) / 100)
  }

  /** int(0.95 * r - 1), with 0.95 taken exactly. */
  function CentileIndex(r: nat): int
  {
    TruncDiv100(95 * r - 100)
  }

  /** `len(distances) > 0.95 * r`, with 0.95 taken exactly. */
  predicate EnoughDistances(n: nat, r: nat)
  {
    100 * n > 95 * r
  }

  /** The centile column: the integer 0, or a sorted distance. */
  datatype Centile = Zero | At(value: Float)

  /**
   * The centile of a file: 0 unless there are more than 0.95 r distances,
   * otherwise the sorted distances indexed at int(0.95 r - 1), Python style
   * (a negative index counts from the end); None on an IndexError.
   */
  function CentileOf(distances: seq<Float>, r: nat): Option<Centile>
  {
    if EnoughDistances(|distances|, r) then
      var s := Sort(distances);
      var k := CentileIndex(r);
      if 0 <= k < |s| then Some(At(s[k]))
      else if -|s| <= k < 0 then Some(At(s[|s| + k]))
      else None
    else Some(Zero)
  }

  /** Whenever the script indexes the sorted distances, the index is in bounds and not negative. */
  lemma CentileIndexInBounds(n: nat, r: nat)
    requires n <= r && EnoughDistances(n, r)
    ensures 0 <= CentileIndex(r) < n
  {
    if 95 * r - 100 >= 0 {
      assert CentileIndex(r) * 100 <= 95 * r - 100;
    }
  }

  /**
   * For what a file gathers the centile never raises. It is 0 unless more
   * than 95% of the r values are positive; then it is one of the distances,
   * positive, with CentileIndex(r) of the sorted distances at or below it
   * and the others at or above it.
   */
  lemma CentileRank(distances: seq<Float>, r: nat)
    requires |distances| <= r && forall i :: 0 <= i < |distances| ==> Positive(distances[i])
    ensures CentileOf(distances, r).Some?
    ensures CentileOf(distances, r).value.Zero? <==> !EnoughDistances(|distances|, r)
    ensures CentileOf(distances, r).value.At? ==>
      var c := CentileOf(distances, r).value.value;
      var s := Sort(distances);
      var k := CentileIndex(r);
      0 <= k < |s| && c == s[k] && c in distances && Positive(c) &&
      (forall i :: 0 <= i < k ==> Le(s[i], c)) && (forall i :: k < i < |s| ==> Le(c, s[i]))
  {
    SortSorted(distances);
    SortPermutes(distances);
    if EnoughDistances(|distances|, r) {
      CentileIndexInBounds(|distances|, r);
      var s := Sort(distances);
      assert s[CentileIndex(r)] in multiset(s);
    }
  }

  // ---------------------------------------------------------------------
  // Rows and the whole run
  // ---------------------------------------------------------------------

  const Columns: seq<string> := ["Dataset", "Tables", "Probes", "Lattice", "ApproximationFactor", "SequenceType",
                                 "Mode", "ProjectionWidthMean", "ProjectionWidthStddev"]


  /** The header line of res.csv. */
  function Header(): string
  {
    JoinWith(Columns, ", ") + ", 95thCentile" + ", trial1, trial2, trial3\n"
  }

  /** hits padded with "" to at least three entries. */
  function Padded(hits: seq<string>): (p: seq<string>)
    ensures |p| == if |hits| < 3 then 3 else |hits|
    ensures p[..|hits|] == hits && forall i :: |hits| <= i < |p| ==> p[i] == ""
  {
    if |hits| < 3 then hits + seq(3 - |hits|, _ => "") else hits
  }

  /** `while len(hits) < 3: hits.append("")`. */
  method Pad(hits: seq<string>) returns (p: seq<string>)
    ensures p == Padded(hits)
  {
    p := hits;
    while |p| < 3
      invariant |hits| <= |p| && p[..|hits|] == hits && forall i :: |hits| <= i < |p| ==> p[i] == ""
      invariant |hits| < 3 ==> |p| <= 3
      invariant |hits| >= 3 ==> p == hits
      decreases 3 - |p|
    {
      p := p + [""];
    }
  }

  /** str(centile): "0" for the integer 0, Python's repr of the float otherwise. */
  function CentileText(c: Centile, show: Float -> string): string
  {
    match c
    case Zero => "0"
    case At(x) => show(x)
  }

  /** Whether the configuration has every column. */
  predicate HasColumns(cur: map<string, string>)
  {
    forall i :: 0 <= i < |Columns| ==> Columns[i] in cur
  }

  /** `[cur[x] for x in columns]`. */
  function Cells(cur: map<string, string>): (cells: seq<string>)
    requires HasColumns(cur)
    ensures |cells| == |Columns|
  {
    seq(|Columns|, i requires 0 <= i < |Columns| => cur[Columns[i]])
  }

  /** What one directory writes to res.csv; None on an IndexError or a KeyError. */
  function RowOf(g: Gathered, show: Float -> string): Option<string>
  {
    match CentileOf(g.distances, g.r)
    case None => None
    case Some(c) =>
      if HasColumns(g.cur) then
        Some(JoinWith(Cells(g.cur), ", ") + ", " + CentileText(c, show) + ", " + JoinWith(Padded(g.hits), ", ") + "\n")
      else None
  }

  /** The sort, the centile and the writes of one directory. */
  method WriteRow(g: Gathered, show: Float -> string) returns (row: Option<string>)
    ensures row == RowOf(g, show)
  {
    var centile := CentileOf(g.distances, g.r);
    if centile.None? || !HasColumns(g.cur) {
      return None;
    }
    var line := JoinWith(Cells(g.cur), ", ");
    var hits := Pad(g.hits);
    line := line + ", " + CentileText(centile.value, show) + ", " + JoinWith(hits, ", ") + "\n";
    row := Some(line);
  }

  // ---------------------------------------------------------------------
  // Reading a row back
  // ---------------------------------------------------------------------

  /** The fields a CSV reader splitting on ',' sees in JoinWith(ps, ", "): the pieces, each but the first after a space. */
  function Fields(ps: seq<string>): seq<string>
    requires |ps| >= 1
  {
    [ps[0]] + seq(|ps| - 1, i requires 0 <= i < |ps| - 1 => " " + ps[i + 1])
  }

  lemma {:induction false} SplitNoSeparator(a: string, c: char)
    requires c !in a
    ensures Split(a, c) == [a]
  {
    if |a| > 0 {
      SplitNoSeparator(a[1..], c);
      assert [a[0]] + a[1..] == a;
    }
  }

  lemma {:induction false} SplitAtFirst(a: string, c: char, b: string)
    requires c !in a
    ensures Split(a + [c] + b, c) == [a] + Split(b, c)
  {
    var s := a + [c] + b;
    if |a| == 0 {
      assert s[1..] == b;
    } else {
      assert s[1..] == a[1..] + [c] + b;
      SplitAtFirst(a[1..], c, b);
      assert [a[0]] + a[1..] == a;
    }
  }

  lemma {:induction false} JoinAppend(xs: seq<string>, ys: seq<string>, sep: string)
    requires |xs| >= 1 && |ys| >= 1
    ensures JoinWith(xs, sep) + sep + JoinWith(ys, sep) == JoinWith(xs + ys, sep)
  {
    if |xs| > 1 {
      JoinAppend(xs[1..], ys, sep);
      assert (xs + ys)[1..] == xs[1..] + ys;
    }
  }

  lemma {:induction false} SplitJoinFields(prefix: string, ps: seq<string>)
    requires |ps| >= 1 && ',' !in prefix && forall i :: 0 <= i < |ps| ==> ',' !in ps[i]
    ensures Split(prefix + JoinWith(ps, ", "), ',') == [prefix + ps[0]] + Fields(ps)[1..]
    decreases |ps|
  {
    if |ps| == 1 {
      SplitNoSeparator(prefix + ps[0], ',');
    } else {
      var rest := JoinWith(ps[1..], ", ");
      assert prefix + JoinWith(ps, ", ") == (prefix + ps[0]) + [','] + (" " + rest);
      SplitAtFirst(prefix + ps[0], ',', " " + rest);
      SplitJoinFields(" ", ps[1..]);
      assert Fields(ps)[1..] == [" " + ps[1]] + Fields(ps[1..])[1..];
    }
  }

  /**
   * Read back with a split on ',', a line of res.csv gives one field per
   * piece the script joined: the nine columns, the centile and the hit
   * rates, as long as no value holds a comma. With at most three `Hits`
   * lines the row has as many fields as the header.
   */
  lemma RowFields(g: Gathered, show: Float -> string)
    requires RowOf(g, show).Some?
    ensures var row := RowOf(g, show).value;
      var ps := Cells(g.cur) + [CentileText(CentileOf(g.distances, g.r).value, show)] + Padded(g.hits);
      |row| >= 1 && row[|row| - 1] == '\n' &&
      ((forall i :: 0 <= i < |ps| ==> ',' !in ps[i]) ==>
        Split(row[..|row| - 1], ',') == Fields(ps) && |Fields(ps)| == |Columns| + 1 + |Padded(g.hits)|)
  {
    var row := RowOf(g, show).value;
    var ct := CentileText(CentileOf(g.distances, g.r).value, show);
    var cells := Cells(g.cur);
    var hits := Padded(g.hits);
    var ps := cells + [ct] + hits;
    JoinAppend(cells, [ct], ", ");
    JoinAppend(cells + [ct], hits, ", ");
    assert row == JoinWith(ps, ", ") + "\n";
    assert row[..|row| - 1] == "" + JoinWith(ps, ", ");
    if forall i :: 0 <= i < |ps| ==> ',' !in ps[i] {
      SplitJoinFields("", ps);
      assert "" + ps[0] == ps[0] && "" + JoinWith(ps, ", ") == JoinWith(ps, ", ");
      assert [ps[0]] + Fields(ps)[1..] == Fields(ps);
    }
  }

  /** A directory: its name and the lines of its results.txt, None when it cannot be opened. */
  datatype Directory = Directory(name: string, lines: Option<seq<string>>)

  /** What the script leaves behind: the lines written to res.csv, the printed messages, and whether it ran to the end. */
  datatype Run = Run(rows: seq<string>, messages: seq<string>, completed: bool)

  /** One directory after the others: skipped with "Ignoring" on an IOError, the end of the run on any other error. */
  function DirStep(run: Run, dir: Directory, parse: Parser, show: Float -> string): Run
  {
    if !run.completed then run
    else match dir.lines
      case None => run.(messages := run.messages + ["Ignoring " + dir.name])
      case Some(lines) =>
        match GatherLines(lines, parse)
        case Raised(printed) => Run(run.rows, run.messages + printed, false)
        case Completed(g) =>
          match RowOf(g, show)
          case None => Run(run.rows, run.messages + g.messages, false)
          case Some(row) => Run(run.rows + [row], run.messages + g.messages, true)
  }

  /** The whole script over the directories, in listing order. */
  function Summary(dirs: seq<Directory>, parse: Parser, show: Float -> string): Run
  {
    if |dirs| == 0 then Run([Header()], [], true)
    else DirStep(Summary(dirs[..|dirs| - 1], parse, show), dirs[|dirs| - 1], parse, show)
  }

  /** Whether a directory that can be opened goes through without an exception. */
  predicate Readable(dir: Directory, parse: Parser, show: Float -> string)
    requires dir.lines.Some?
  {
    var g := GatherLines(dir.lines.value, parse);
    g.Completed? && RowOf(g.g, show).Some?
  }

  /** The number of directories whose file could be opened. */
  function Opened(dirs: seq<Directory>): (n: nat)
    ensures n <= |dirs|
  {
    if |dirs| == 0 then 0 else Opened(dirs[..|dirs| - 1]) + (if dirs[|dirs| - 1].lines.Some? then 1 else 0)
  }

  /** Every run, finished or not, has written the header first. */
  lemma {:induction false} SummaryHeader(dirs: seq<Directory>, parse: Parser, show: Float -> string)
    ensures |Summary(dirs, parse, show).rows| >= 1 && Summary(dirs, parse, show).rows[0] == Header()
  {
    if |dirs| > 0 {
      var run := Summary(dirs[..|dirs| - 1], parse, show);
      SummaryHeader(dirs[..|dirs| - 1], parse, show);
      DirStepAppends(run, dirs[|dirs| - 1], parse, show);
    }
  }

  /** A directory only ever adds a line to res.csv, so what is written stays written. */
  lemma DirStepAppends(run: Run, dir: Directory, parse: Parser, show: Float -> string)
    ensures run.rows <= DirStep(run, dir, parse, show).rows
  {
  }

  /**
   * The run completes exactly when every directory that can be opened goes
   * through; res.csv then holds the header and one row per such directory,
   * and one that cannot be opened leaves only its "Ignoring" message.
   */
  lemma {:induction false} SummaryRows(dirs: seq<Directory>, parse: Parser, show: Float -> string)
    ensures Summary(dirs, parse, show).completed <==>
      forall i :: 0 <= i < |dirs| && dirs[i].lines.Some? ==> Readable(dirs[i], parse, show)
    ensures Summary(dirs, parse, show).completed ==> |Summary(dirs, parse, show).rows| == 1 + Opened(dirs)
  {
    if |dirs| > 0 {
      var init := dirs[..|dirs| - 1];
      var dir := dirs[|dirs| - 1];
      SummaryRows(init, parse, show);
      DirStepOutcome(Summary(init, parse, show), dir, parse, show);
      assert forall i :: 0 <= i < |init| ==> dirs[i] == init[i];
    }
  }

  /**
   * One directory: the run goes on exactly when it was going and the
   * directory is skipped or goes through; a file whose lines raise ends the
   * run with its earlier messages printed and no row.
   */
  lemma DirStepOutcome(run: Run, dir: Directory, parse: Parser, show: Float -> string)
    ensures DirStep(run, dir, parse, show).completed <==>
      run.completed && (dir.lines.Some? ==> Readable(dir, parse, show))
    ensures DirStep(run, dir, parse, show).completed ==>
      |DirStep(run, dir, parse, show).rows| == |run.rows| + (if dir.lines.Some? then 1 else 0)
    ensures run.completed && dir.lines.Some? && GatherLines(dir.lines.value, parse).Raised? ==>
      DirStep(run, dir, parse, show) == Run(run.rows, run.messages + GatherLines(dir.lines.value, parse).printed, false)
  {
  }

  /** Once a directory raises, the later ones are never reached. */
  lemma {:induction false} SummaryStops(dirs: seq<Directory>, parse: Parser, show: Float -> string, i: nat)
    requires i <= |dirs| && !Summary(dirs[..i], parse, show).completed
    ensures Summary(dirs, parse, show) == Summary(dirs[..i], parse, show)
    decreases |dirs|
  {
    if i < |dirs| {
      var init := dirs[..|dirs| - 1];
      assert init[..i] == dirs[..i];
      SummaryStops(init, parse, show, i);
    } else {
      assert dirs[..i] == dirs;
    }
  }

  /** The script: the header, then each directory in turn until one raises. */
  method Summarise(dirs: seq<Directory>, parse: Parser, show: Float -> string) returns (run: Run)
    ensures run == Summary(dirs, parse, show)
  {
    var rows := [Header()];
    var messages: seq<string> := [];
    for i := 0 to |dirs|
      invariant Summary(dirs[..i], parse, show) == Run(rows, messages, true)
    {
      var dir := dirs[i];
      assert dirs[..i + 1][..i] == dirs[..i] && dirs[..i + 1][i] == dir;
      if dir.lines.None? {
        messages := messages + ["Ignoring " + dir.name];
      } else {
        var g := GatherFile(dir.lines.value, parse);
        var row: Option<string> := None;
        if g.Completed? {
          messages := messages + g.g.messages;
          row := WriteRow(g.g, show);
        } else {
          messages := messages + g.printed;
        }
        if row.None? {
          SummaryStops(dirs, parse, show, i + 1);
          return Run(rows, messages, false);
        }
        rows := rows + [row.value];
      }
    }
    assert dirs[..|dirs|] == dirs;
    run := Run(rows, messages, true);
  }
}
