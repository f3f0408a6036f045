/**
 The argument scan of host/ubertooth-tools/getopt/getopt.c in its default, permuting
 mode, with short options only: getopt reads the options of argv wherever they stand
 and leaves argv with all options in front of all other arguments.
*/
module Getopt {

  // ----- What the scan should find -----

  /** An element without option syntax: it does not start with '-', or is '-' alone. */
  predicate NonOption(w: string) {
    |w| < 2 || w[0] != '-'
  }

  datatype Kind = Unknown | Plain | Required | Optional

  /** The first place of a character in a string, or the length of the string. */
  function IndexOf(s: string, c: char): (k: nat)
    ensures k <= |s| && (k < |s| ==> s[k] == c) && forall j :: 0 <= j < k ==> s[j] != c
  {
    if s == "" || s[0] == c then 0 else 1 + IndexOf(s[1..], c)
  }

  /** What the option string says of an option character. */
  function KindOf(optstring: string, c: char): Kind {
    var k := IndexOf(optstring, c);
    if k == |optstring| || c == ':' then Unknown
    else if k + 1 < |optstring| && optstring[k + 1] == ':' then
      if k + 2 < |optstring| && optstring[k + 2] == ':' then Optional else Required
    else Plain
  }

  datatype Arg = NoArg | Text(text: string)

  /** One option as the caller gets it: the character returned, and optarg. */
  datatype Answer = Answer(ret: char, arg: Arg)

  /** What is returned for an option without the argument it needs. */
  function Missing(optstring: string): char {
    if optstring != "" && optstring[0] == ':' then ':' else '?'
  }

  /** The answers for the rest of an option element, and how many elements it takes up. */
  datatype Element = Element(answers: seq<Answer>, used: nat)

  function Parse(optstring: string, next: string, words: seq<string>, i: nat): (e: Element)
    requires next != "" && i < |words|
    ensures 1 <= e.used <= 2 && i + e.used <= |words| && e.answers != []
    decreases |next|
  {
    var c, rest := next[0], next[1..];
    match KindOf(optstring, c)
    case Optional => Element([Answer(c, if rest == "" then NoArg else Text(rest))], 1)
    case Required =>
      if rest != "" then Element([Answer(c, Text(rest))], 1)
      else if i + 1 < |words| then Element([Answer(c, Text(words[i + 1]))], 2)
      else Element([Answer(Missing(optstring), NoArg)], 1)
    case kind =>
      var answer := Answer(if kind == Unknown then '?' else c, NoArg);
      if rest == "" then Element([answer], 1)
      else
        var e := Parse(optstring, rest, words, i);
        Element([answer] + e.answers, e.used)
  }

  /** The options with their arguments, everything else, and the answers, all in the order of the command line. */
  datatype Scan = Scan(opts: seq<string>, nonopts: seq<string>, answers: seq<Answer>)

  function Classify(optstring: string, words: seq<string>, i: nat): Scan
    requires i <= |words|
    decreases |words| - i
  {
    if i == |words| then Scan([], [], [])
    else if NonOption(words[i]) then
      var r := Classify(optstring, words, i + 1);
      r.(nonopts := [words[i]] + r.nonopts)
    else if words[i] == "--" then Scan(["--"], words[i + 1..], [])
    else Pending(optstring, words[i][1..], words, i)
  }

  /** The scan from inside an option element on. */
  function Pending(optstring: string, next: string, words: seq<string>, i: nat): Scan
    requires next != "" && i < |words|
    decreases |words| - i, 0
  {
    var e := Parse(optstring, next, words, i);
    Before(words[i..i + e.used], e.answers, Classify(optstring, words, i + e.used))
  }

  /** Option elements and their answers in front of the rest of a scan. */
  function Before(elements: seq<string>, answers: seq<Answer>, r: Scan): Scan {
    Scan(elements + r.opts, r.nonopts, answers + r.answers)
  }

  // ----- What the option string means -----

  /** The first place of a character is where it is, if it is not before it. */
  lemma {:induction false} IndexBehind(prefix: string, c: char, rest: string)
    requires c !in prefix
    ensures IndexOf(prefix + [c] + rest, c) == |prefix|
    decreases |prefix|
  {
    if prefix == "" {
      assert ("" + [c] + rest)[0] == c;
    } else {
      assert (prefix + [c] + rest)[1..] == prefix[1..] + [c] + rest;
      IndexBehind(prefix[1..], c, rest);
    }
  }

  lemma {:induction false} IndexOfNone(s: string, c: char)
    ensures IndexOf(s, c) == |s| <==> c !in s
  {
    if s != "" && s[0] != c {
      IndexOfNone(s[1..], c);
    }
  }

  /** A character is no option exactly when it is a colon or not in the option string. */
  lemma UnknownExactly(optstring: string, c: char)
    ensures KindOf(optstring, c) == Unknown <==> c == ':' || c !in optstring
  {
    IndexOfNone(optstring, c);
  }

  /** Otherwise what stands behind its first place decides: no colon, one colon, or two. */
  lemma KindExactly(prefix: string, c: char, rest: string)
    requires c !in prefix && c != ':'
    ensures KindOf(prefix + [c] + rest, c) == Plain <==> rest == "" || rest[0] != ':'
    ensures KindOf(prefix + [c] + rest, c) == Required <==> rest != "" && rest[0] == ':' && (|rest| == 1 || rest[1] != ':')
    ensures KindOf(prefix + [c] + rest, c) == Optional <==> |rest| >= 2 && rest[..2] == "::"
  {
    var all := prefix + [c] + rest;
    IndexBehind(prefix, c, rest);
    assert all[|prefix| + 1..] == rest;
    assert rest != "" ==> all[|prefix| + 1] == rest[0];
    assert |rest| >= 2 ==> all[|prefix| + 2] == rest[1];
  }

  /** Characters that are options without an argument, or none at all. */
  predicate PlainOnes(optstring: string, run: string) {
    forall k :: 0 <= k < |run| ==> KindOf(optstring, run[k]) == Plain || KindOf(optstring, run[k]) == Unknown
  }

  /** Each of them is answered by itself, or by '?'. */
  function PlainAnswer(optstring: string, c: char): Answer {
    Answer(if c == ':' || c !in optstring then '?' else c, NoArg)
  }

  function PlainAnswers(optstring: string, run: string): (answers: seq<Answer>)
    ensures |answers| == |run|
  {
    seq(|run|, k requires 0 <= k < |run| => PlainAnswer(optstring, run[k]))
  }

  /** The answer of the first character in front of those of the rest. */
  lemma PlainStep(optstring: string, c: char, next: string, words: seq<string>, i: nat)
    requires next != "" && i < |words| && (KindOf(optstring, c) == Plain || KindOf(optstring, c) == Unknown)
    ensures var e := Parse(optstring, next, words, i);
            Parse(optstring, [c] + next, words, i) == Element([PlainAnswer(optstring, c)] + e.answers, e.used)
  {
    UnknownExactly(optstring, c);
    assert ([c] + next)[1..] == next;
  }

  lemma FirstAnswer(optstring: string, c: char, run: string)
    ensures PlainAnswers(optstring, [c] + run) == [PlainAnswer(optstring, c)] + PlainAnswers(optstring, run)
  {}

  lemma AnswersSplit(optstring: string, run: string, k: nat)
    requires k <= |run|
    ensures PlainAnswers(optstring, run) == PlainAnswers(optstring, run[..k]) + PlainAnswers(optstring, run[k..])
  {}

  lemma {:induction false} PlainRun(optstring: string, run: string, tail: string, words: seq<string>, i: nat)
    requires tail != "" && i < |words| && PlainOnes(optstring, run)
    ensures var e := Parse(optstring, tail, words, i);
            Parse(optstring, run + tail, words, i) == Element(PlainAnswers(optstring, run) + e.answers, e.used)
    decreases |run|
  {
    if run == "" {
      assert run + tail == tail;
    } else {
      PlainRun(optstring, run[1..], tail, words, i);
      PlainStep(optstring, run[0], run[1..] + tail, words, i);
      assert [run[0]] + (run[1..] + tail) == run + tail;
      FirstAnswer(optstring, run[0], run[1..]);
      assert [run[0]] + run[1..] == run;
    }
  }

  /** An element of such characters alone. */
  lemma PlainElement(optstring: string, words: seq<string>, i: nat, run: string)
    requires i < |words| && words[i] == "-" + run && run != "" && run != "-" && PlainOnes(optstring, run)
    ensures Classify(optstring, words, i) == Before([words[i]], PlainAnswers(optstring, run), Classify(optstring, words, i + 1))
  {
    var first, last := run[..|run| - 1], run[|run| - 1..];
    assert run == first + last && |last| == 1;
    UnknownExactly(optstring, last[0]);
    PlainRun(optstring, first, last, words, i);
    AnswersSplit(optstring, run, |run| - 1);
    assert Parse(optstring, last, words, i) == Element(PlainAnswers(optstring, last), 1);
    assert words[i][1..] == run && words[i..i + 1] == [words[i]];
  }

  /** Behind them an option that needs an argument takes the rest of the element. */
  lemma RequiredAttached(prefix: string, c: char, rest: string, words: seq<string>, i: nat, run: string, text: string)
    requires c !in prefix && c != ':' && rest != "" && rest[0] == ':' && (|rest| == 1 || rest[1] != ':')
    requires i < |words| && words[i] == "-" + run + [c] + text && text != "" && PlainOnes(prefix + [c] + rest, run)
    ensures var all := prefix + [c] + rest;
            Classify(all, words, i)
            == Before([words[i]], PlainAnswers(all, run) + [Answer(c, Text(text))], Classify(all, words, i + 1))
  {
    KindExactly(prefix, c, rest);
    OptionElement(prefix + [c] + rest, words, i, run, c, text, [Answer(c, Text(text))], 1);
  }

  /** Or, at the end of the element, the next one, whatever that is. */
  lemma RequiredNext(prefix: string, c: char, rest: string, words: seq<string>, i: nat, run: string)
    requires c !in prefix && c != ':' && rest != "" && rest[0] == ':' && (|rest| == 1 || rest[1] != ':')
    requires i + 1 < |words| && words[i] == "-" + run + [c] && words[i] != "--" && PlainOnes(prefix + [c] + rest, run)
    ensures var all := prefix + [c] + rest;
            Classify(all, words, i)
            == Before([words[i], words[i + 1]], PlainAnswers(all, run) + [Answer(c, Text(words[i + 1]))],
                      Classify(all, words, i + 2))
  {
    KindExactly(prefix, c, rest);
    OptionElement(prefix + [c] + rest, words, i, run, c, "", [Answer(c, Text(words[i + 1]))], 2);
  }

  /** At the end of the arguments it is answered by ':' or '?', as the first character of the option string says. */
  lemma RequiredMissing(prefix: string, c: char, rest: string, words: seq<string>, run: string)
    requires c !in prefix && c != ':' && rest != "" && rest[0] == ':' && (|rest| == 1 || rest[1] != ':')
    requires words != [] && words[|words| - 1] == "-" + run + [c] && words[|words| - 1] != "--"
    requires PlainOnes(prefix + [c] + rest, run)
    ensures var all, i := prefix + [c] + rest, |words| - 1;
            Classify(all, words, i)
            == Scan([words[i]], [], PlainAnswers(all, run) + [Answer(if all[0] == ':' then ':' else '?', NoArg)])
  {
    KindExactly(prefix, c, rest);
    LastRequired(prefix + [c] + rest, words, |words| - 1, run, c);
  }

  lemma LastRequired(all: string, words: seq<string>, i: nat, run: string, c: char)
    requires all != "" && KindOf(all, c) == Required && PlainOnes(all, run)
    requires i + 1 == |words| && words[i] == "-" + run + [c] && words[i] != "--"
    ensures Classify(all, words, i)
         == Scan([words[i]], [], PlainAnswers(all, run) + [Answer(if all[0] == ':' then ':' else '?', NoArg)])
  {
    var answer := Answer(if all[0] == ':' then ':' else '?', NoArg);
    assert [c] + "" == [c] && words[i] == "-" + run + [c] + "";
    assert Parse(all, [c] + "", words, i) == Element([answer], 1);
    OptionElement(all, words, i, run, c, "", [answer], 1);
  }

  /** An option with an optional argument takes the rest of its element, and never the next element. */
  lemma OptionalAttached(prefix: string, c: char, rest: string, words: seq<string>, i: nat, run: string, text: string)
    requires c !in prefix && c != ':' && |rest| >= 2 && rest[..2] == "::"
    requires i < |words| && words[i] == "-" + run + [c] + text && words[i] != "--" && PlainOnes(prefix + [c] + rest, run)
    ensures var all := prefix + [c] + rest;
            Classify(all, words, i)
            == Before([words[i]], PlainAnswers(all, run) + [Answer(c, if text == "" then NoArg else Text(text))],
                      Classify(all, words, i + 1))
  {
    KindExactly(prefix, c, rest);
    OptionElement(prefix + [c] + rest, words, i, run, c, text, [Answer(c, if text == "" then NoArg else Text(text))], 1);
  }

  lemma OptionElement(optstring: string, words: seq<string>, i: nat, run: string, c: char, text: string,
                      answers: seq<Answer>, used: nat)
    requires i + used <= |words| && used >= 1 && words[i] == "-" + run + [c] + text && words[i] != "--"
    requires PlainOnes(optstring, run) && Parse(optstring, [c] + text, words, i) == Element(answers, used)
    ensures Classify(optstring, words, i)
         == Before(words[i..i + used], PlainAnswers(optstring, run) + answers, Classify(optstring, words, i + used))
    ensures used == 1 ==> words[i..i + used] == [words[i]]
    ensures used == 2 ==> words[i..i + used] == [words[i], words[i + 1]]
  {
    PlainRun(optstring, run, [c] + text, words, i);
    assert words[i][1..] == run + ([c] + text);
  }

  /** A program called with an option and one more word: who gets the word depends on the colons behind the option. */
  lemma TwoWords(prefix: string, c: char, rest: string, name: string, word: string)
    requires c !in prefix && c != ':' && c != '-' && word != "" && word[0] != '-'
    ensures var all := prefix + [c] + rest;
            Classify(all, [name, ['-', c], word], 1)
            == if rest == "" || rest[0] != ':' then Scan([['-', c]], [word], [Answer(c, NoArg)])
               else if |rest| >= 2 && rest[..2] == "::" then Scan([['-', c]], [word], [Answer(c, NoArg)])
               else Scan([['-', c], word], [], [Answer(c, Text(word))])
  {
    var all, words := prefix + [c] + rest, [name, ['-', c], word];
    KindExactly(prefix, c, rest);
    assert words[1] == "-" + "" + [c] && words[1] == "-" + "" + [c] + "" && words[1] == "-" + [c];
    assert Classify(all, words, 3) == Scan([], [], []);
    OtherElements(all, words, 2);
    if rest == "" || rest[0] != ':' {
      PlainElement(all, words, 1, [c]);
      assert c in all;
    } else if |rest| >= 2 && rest[..2] == "::" {
      OptionalAttached(prefix, c, rest, words, 1, "", "");
    } else {
      RequiredNext(prefix, c, rest, words, 1, "");
    }
  }

  /** Other elements: what has no option syntax is kept for the caller, and "--" ends the options. */
  lemma OtherElements(optstring: string, words: seq<string>, i: nat)
    requires i < |words|
    ensures words[i] == "" || words[i] == "-" || words[i][0] != '-' ==>
              var r := Classify(optstring, words, i + 1);
              Classify(optstring, words, i) == Scan(r.opts, [words[i]] + r.nonopts, r.answers)
    ensures words[i] == "--" ==> Classify(optstring, words, i) == Scan(["--"], words[i + 1..], [])
  {}

  // ----- Exchanging two segments -----

  /** The two adjacent segments from b to m and from m to t have changed places. */
  function Rotated(s: seq<string>, b: nat, m: nat, t: nat): (r: seq<string>)
    requires b <= m <= t <= |s|
    ensures |r| == |s|
  {
    seq(|s|, k requires 0 <= k < |s| =>
      if k < b || k >= t then s[k] else if k < b + (t - m) then s[k + (m - b)] else s[k - (t - m)])
  }

  lemma RotatedParts(s: seq<string>, b: nat, m: nat, t: nat)
    requires b <= m <= t <= |s|
    ensures Rotated(s, b, m, t) == s[..b] + s[m..t] + s[b..m] + s[t..]
  {}

  /** Two runs of the same length have changed places. */
  function Swapped(s: seq<string>, i: nat, j: nat, len: nat): (r: seq<string>)
    requires i + len <= j && j + len <= |s|
    ensures |r| == |s|
  {
    seq(|s|, k requires 0 <= k < |s| =>
      if i <= k < i + len then s[k - i + j] else if j <= k < j + len then s[k - j + i] else s[k])
  }

  /** Swapping the shorter first segment with the far end leaves a shorter exchange to do. */
  lemma ShortBottom(s: seq<string>, b: nat, m: nat, t: nat, len: nat, far: nat)
    requires b < m < t <= |s| && m - b < t - m && len == m - b && far == t - len
    ensures Rotated(Swapped(s, b, far, len), b, m, far) == Rotated(s, b, m, t)
  {}

  /** Swapping the shorter last segment with the near end likewise. */
  lemma ShortTop(s: seq<string>, b: nat, m: nat, t: nat, len: nat, near: nat)
    requires b < m < t <= |s| && t - m <= m - b && len == t - m && near == b + len
    ensures Rotated(Swapped(s, b, m, len), near, m, t) == Rotated(s, b, m, t)
  {}

  /** The inner loops of exchange. */
  method SwapRuns(argv: array<string>, i0: nat, j0: nat, len: nat)
    requires i0 + len <= j0 && j0 + len <= argv.Length
    modifies argv
    ensures argv[..] == Swapped(old(argv[..]), i0, j0, len)
  {
    for i := 0 to len
      invariant argv[..] == Swapped(old(argv[..]), i0, j0, i)
    {
      SwapOneMore(old(argv[..]), i0, j0, i);
      var tem := argv[i0 + i];
      argv[i0 + i] := argv[j0 + i];
      argv[j0 + i] := tem;
    }
  }

  lemma SwapOneMore(s: seq<string>, i: nat, j: nat, n: nat)
    requires i + n < j && j + n < |s|
    ensures var u := Swapped(s, i, j, n); u[i + n := u[j + n]][j + n := u[i + n]] == Swapped(s, i, j, n + 1)
  {}

  lemma NothingToRotate(s: seq<string>, b: nat, m: nat, t: nat)
    requires b <= m <= t <= |s| && (b == m || m == t)
    ensures Rotated(s, b, m, t) == s
  {}

  /** The bottom segment is the short one: swaps it with the top part of the top segment. */
  method SwapBottom(argv: array<string>, bottom: nat, middle: nat, top: nat) returns (far: nat)
    requires bottom < middle < top <= argv.Length && middle - bottom < top - middle
    modifies argv
    ensures far == top - (middle - bottom)
    ensures Rotated(argv[..], bottom, middle, far) == Rotated(old(argv[..]), bottom, middle, top)
  {
    var len := middle - bottom;
    far := top - len;
    ShortBottom(argv[..], bottom, middle, top, len, far);
    SwapRuns(argv, bottom, far, len);
  }

  /** The top segment is the short one: swaps it with the bottom part of the bottom segment. */
  method SwapTop(argv: array<string>, bottom: nat, middle: nat, top: nat) returns (near: nat)
    requires bottom < middle < top <= argv.Length && top - middle <= middle - bottom
    modifies argv
    ensures near == bottom + (top - middle)
    ensures Rotated(argv[..], near, middle, top) == Rotated(old(argv[..]), bottom, middle, top)
  {
    var len := top - middle;
    near := bottom + len;
    ShortTop(argv[..], bottom, middle, top, len, near);
    SwapRuns(argv, bottom, middle, len);
  }

  /** The loop of exchange: it ends, and rotates the two segments whatever their lengths. */
  method Exchange(argv: array<string>, firstNonopt: nat, lastNonopt: nat, optind: nat)
    requires firstNonopt <= lastNonopt <= optind <= argv.Length
    modifies argv
    ensures argv[..] == Rotated(old(argv[..]), firstNonopt, lastNonopt, optind)
  {
    var bottom: nat, middle: nat, top: nat := firstNonopt, lastNonopt, optind;
    ghost var goal := Rotated(argv[..], bottom, middle, top);
    while top > middle && middle > bottom
      invariant bottom <= middle <= top <= argv.Length
      invariant Rotated(argv[..], bottom, middle, top) == goal
      decreases top - bottom
    {
      if top - middle > middle - bottom {
        top := SwapBottom(argv, bottom, middle, top);
      } else {
        bottom := SwapTop(argv, bottom, middle, top);
      }
    }
    NothingToRotate(argv[..], bottom, middle, top);
  }

  // ----- The state of the scan -----

  /** What of argv has been scanned, in which segments, and that the rest of it is untouched. */
  predicate Placed(argv: seq<string>, words: seq<string>, first: nat, last: nat, optind: nat) {
    && 1 <= first <= last <= optind <= |argv| == |words|
    && argv[0] == words[0] && argv[optind..] == words[optind..]
  }

  /** What is still to be found from here on. */
  function Rest(optstring: string, words: seq<string>, optind: nat, nextchar: string): Scan
    requires optind <= |words| && (nextchar != "" ==> optind < |words|)
  {
    if nextchar == "" then Classify(optstring, words, optind) else Pending(optstring, nextchar, words, optind)
  }

  /** The whole scan is what the segments of argv hold so far, followed by the rest. */
  predicate Scanned(total: Scan, argv: seq<string>, first: nat, last: nat, optind: nat, rest: Scan, done: seq<Answer>)
    requires 1 <= first <= last <= optind <= |argv|
  {
    && total.opts == argv[1..first] + argv[last..optind] + rest.opts
    && total.nonopts == argv[first..last] + rest.nonopts
    && total.answers == done + rest.answers
  }

  lemma ExchangeKeeps(total: Scan, argv: seq<string>, words: seq<string>, first: nat, last: nat, optind: nat, rest: Scan,
                      done: seq<Answer>, after: seq<string>, newFirst: nat)
    requires Placed(argv, words, first, last, optind) && Scanned(total, argv, first, last, optind, rest, done)
    requires after == Rotated(argv, first, last, optind) && newFirst == first + (optind - last)
    ensures Placed(after, words, newFirst, optind, optind)
    ensures Scanned(total, after, newFirst, optind, optind, rest, done)
  {
    RotatedParts(argv, first, last, optind);
    assert after[1..newFirst] == argv[1..first] + argv[last..optind];
    assert after[newFirst..optind] == argv[first..last];
    assert after[optind..] == argv[optind..];
    assert after[optind..optind] == [];
  }

  lemma NoneSkippedKeeps(total: Scan, argv: seq<string>, words: seq<string>, first: nat, optind: nat, rest: Scan,
                         done: seq<Answer>)
    requires Placed(argv, words, first, first, optind) && Scanned(total, argv, first, first, optind, rest, done)
    ensures Placed(argv, words, optind, optind, optind) && Scanned(total, argv, optind, optind, optind, rest, done)
  {}

  lemma SkipKeeps(total: Scan, argv: seq<string>, words: seq<string>, first: nat, optind: nat, optstring: string,
                  done: seq<Answer>)
    requires Placed(argv, words, first, optind, optind) && optind < |words| && NonOption(argv[optind])
    requires Scanned(total, argv, first, optind, optind, Classify(optstring, words, optind), done)
    ensures argv[optind] == words[optind] && Placed(argv, words, first, optind + 1, optind + 1)
    ensures Scanned(total, argv, first, optind + 1, optind + 1, Classify(optstring, words, optind + 1), done)
  {}

  /** The end of the scan: all that was found is in argv, options first. */
  predicate Finished(total: Scan, argv: seq<string>, words: seq<string>, optind: nat, done: seq<Answer>) {
    && words != [] && argv == [words[0]] + total.opts + total.nonopts
    && optind == 1 + |total.opts| && done == total.answers
  }

  lemma EndFinishes(total: Scan, argv: seq<string>, words: seq<string>, first: nat, done: seq<Answer>)
    requires Placed(argv, words, first, |argv|, |argv|)
    requires Scanned(total, argv, first, |argv|, |argv|, Scan([], [], []), done)
    ensures Finished(total, argv, words, first, done)
  {}

  /** The element "--": it becomes the last option, and everything behind it is no option. */
  lemma DashesKeep(total: Scan, argv: seq<string>, words: seq<string>, first: nat, optind: nat, optstring: string,
                   done: seq<Answer>)
    requires Placed(argv, words, first, optind, optind) && optind < |words| && argv[optind] == "--"
    requires Scanned(total, argv, first, optind, optind, Classify(optstring, words, optind), done)
    ensures Placed(argv, words, first, optind, optind + 1)
    ensures Scanned(total, argv, first, optind, optind + 1, Scan([], words[optind + 1..], []), done)
  {}

  lemma TailIsNonopts(total: Scan, argv: seq<string>, words: seq<string>, first: nat, optind: nat, done: seq<Answer>)
    requires Placed(argv, words, first, optind, optind)
    requires Scanned(total, argv, first, optind, optind, Scan([], words[optind..], []), done)
    ensures Placed(argv, words, first, |argv|, |argv|)
    ensures Scanned(total, argv, first, |argv|, |argv|, Scan([], [], []), done)
  {}

  /** An option element, with the argument it took from the next one, joins the options. */
  lemma ElementKeeps(total: Scan, argv: seq<string>, words: seq<string>, first: nat, last: nat, optind: nat, used: nat,
                     rest: Scan, r: Scan, answers: seq<Answer>, done: seq<Answer>)
    requires Placed(argv, words, first, last, optind) && optind + used <= |words|
    requires Scanned(total, argv, first, last, optind, rest, done)
    requires rest == Before(words[optind..optind + used], answers, r)
    ensures Placed(argv, words, first, last, optind + used)
    ensures Scanned(total, argv, first, last, optind + used, r, done + answers)
  {}

  // ----- One option character -----

  /** The answer for the next option character, what is left of its element, and how many elements are done with. */
  datatype Step = Step(answer: Answer, next: string, used: nat)

  function StepOf(optstring: string, next: string, words: seq<string>, i: nat): (s: Step)
    requires next != "" && i < |words|
    ensures i + s.used <= |words| && (s.used == 0 <==> s.next != "")
  {
    var c, rest := next[0], next[1..];
    match KindOf(optstring, c)
    case Optional => Step(Answer(c, if rest == "" then NoArg else Text(rest)), "", 1)
    case Required =>
      if rest != "" then Step(Answer(c, Text(rest)), "", 1)
      else if i + 1 < |words| then Step(Answer(c, Text(words[i + 1])), "", 2)
      else Step(Answer(Missing(optstring), NoArg), "", 1)
    case kind => Step(Answer(if kind == Unknown then '?' else c, NoArg), rest, if rest == "" then 1 else 0)
  }

  lemma ParseStep(optstring: string, next: string, words: seq<string>, i: nat)
    requires next != "" && i < |words|
    ensures var s := StepOf(optstring, next, words, i);
            Parse(optstring, next, words, i) ==
            if s.used > 0 then Element([s.answer], s.used)
            else Element([s.answer] + Parse(optstring, s.next, words, i).answers, Parse(optstring, s.next, words, i).used)
  {}

  lemma BeforeSplit(elements: seq<string>, a: Answer, answers: seq<Answer>, r: Scan)
    ensures Before(elements, [a] + answers, r) == Before([], [a], Before(elements, answers, r))
  {}

  /** The scan from a character on is its answer, and the scan from where it leads. */
  lemma PendingStep(optstring: string, next: string, words: seq<string>, i: nat, s: Step)
    requires next != "" && i < |words| && s == StepOf(optstring, next, words, i)
    ensures Pending(optstring, next, words, i)
         == Before(words[i..i + s.used], [s.answer], Rest(optstring, words, i + s.used, s.next))
  {
    ParseStep(optstring, next, words, i);
    if s.used == 0 {
      var e := Parse(optstring, s.next, words, i);
      assert words[i..i] == [];
      BeforeSplit(words[i..i + e.used], s.answer, e.answers, Classify(optstring, words, i + e.used));
    }
  }

  lemma SameStep(optstring: string, next: string, argv: seq<string>, words: seq<string>, first: nat, last: nat, i: nat)
    requires next != "" && Placed(argv, words, first, last, i) && i < |words|
    ensures StepOf(optstring, next, argv, i) == StepOf(optstring, next, words, i)
  {}

  lemma StepFacts(optstring: string, next: string, argv: seq<string>, words: seq<string>, first: nat, last: nat, i: nat)
    returns (s: Step, r: Scan)
    requires next != "" && Placed(argv, words, first, last, i) && i < |words|
    ensures s == StepOf(optstring, next, argv, i) && i + s.used <= |words| && (s.next != "" ==> i + s.used < |words|)
    ensures r == Rest(optstring, words, i + s.used, s.next)
    ensures Pending(optstring, next, words, i) == Before(words[i..i + s.used], [s.answer], r)
  {
    SameStep(optstring, next, argv, words, first, last, i);
    s := StepOf(optstring, next, words, i);
    r := Rest(optstring, words, i + s.used, s.next);
    PendingStep(optstring, next, words, i, s);
  }

  /** An option character and its answer join the scan. */
  lemma StepKeeps(total: Scan, optstring: string, next: string, argv: seq<string>, words: seq<string>, first: nat, last: nat,
                  i: nat, done: seq<Answer>) returns (s: Step)
    requires next != "" && Placed(argv, words, first, last, i) && i < |words|
    requires Scanned(total, argv, first, last, i, Rest(optstring, words, i, next), done)
    ensures s == StepOf(optstring, next, argv, i) && Placed(argv, words, first, last, i + s.used)
    ensures (s.next != "" ==> i + s.used < |words|)
    ensures Scanned(total, argv, first, last, i + s.used, Rest(optstring, words, i + s.used, s.next), done + [s.answer])
  {
    var r;
    s, r := StepFacts(optstring, next, argv, words, first, last, i);
    ElementKeeps(total, argv, words, first, last, i, s.used, Rest(optstring, words, i, next), r, [s.answer], done);
  }

  // ----- The getopt of the tools -----

  datatype Return = Done | Got(c: char)

  /** An option string that asks neither for another ordering nor for long options behind -W. */
  predicate Modelled(optstring: string) {
    && (optstring != "" ==> optstring[0] != '-' && optstring[0] != '+')
    && var w := IndexOf(optstring, 'W'); w + 1 < |optstring| ==> optstring[w + 1] != ';'
  }

  class Scanner {
    const argv: array<string>
    var optind: nat
    var firstNonopt: nat
    var lastNonopt: nat
    var nextchar: string
    var optarg: Arg
    var optopt: char

    /** The scan of the original words stands where done has been answered. */
    ghost predicate Standing(optstring: string, words: seq<string>, done: seq<Answer>)
      reads this, argv
    {
      && Placed(argv[..], words, firstNonopt, lastNonopt, optind) && (nextchar != "" ==> optind < |words|)
      && Scanned(Classify(optstring, words, 1), argv[..], firstNonopt, lastNonopt, optind,
                 Rest(optstring, words, optind, nextchar), done)
    }

    ghost predicate AtEnd(optstring: string, words: seq<string>, done: seq<Answer>)
      reads this, argv
    {
      words != [] && Finished(Classify(optstring, words, 1), argv[..], words, optind, done)
    }

    /** The first call's initialization, with the program name skipped. */
    constructor (arguments: array<string>)
      requires arguments.Length >= 1
      ensures argv == arguments && nextchar == ""
      ensures forall optstring :: Standing(optstring, argv[..], [])
    {
      argv := arguments;
      optind, firstNonopt, lastNonopt := 1, 1, 1;
      nextchar, optarg, optopt := "", NoArg, '?';
    }

    /** Advances to the next element: past the non-options, up to an option element or to the end. */
    method NextElement(optstring: string, ghost words: seq<string>, ghost done: seq<Answer>) returns (more: bool)
      requires Standing(optstring, words, done) && nextchar == ""
      modifies this, argv
      ensures optarg == old(optarg)
      ensures more ==> Standing(optstring, words, done) && nextchar != ""
      ensures !more ==> AtEnd(optstring, words, done) && nextchar == ""
    {
      GatherOptions(Classify(optstring, words, 1), words, Classify(optstring, words, optind), done);
      SkipNonoptions(optstring, words, done);
      if optind != argv.Length && argv[optind] == "--" {
        ghost var total := Classify(optstring, words, 1);
        DashesKeep(total, argv[..], words, firstNonopt, optind, optstring, done);
        EndOfOptions(total, words, done);
        EndOfWords(total, words, done);
        return false;
      }
      if optind == argv.Length {
        EndOfWords(Classify(optstring, words, 1), words, done);
        return false;
      }
      assert argv[optind] == argv[optind..][0] == words[optind];
      nextchar := argv[optind][1..];
      return true;
    }

    /** All elements are scanned: the index goes back to the non-options that were skipped. */
    method EndOfWords(ghost total: Scan, ghost words: seq<string>, ghost done: seq<Answer>)
      requires Holds(total, words, Scan([], [], []), done) && lastNonopt == optind == argv.Length
      modifies this
      ensures Finished(total, argv[..], words, optind, done) && nextchar == old(nextchar) && optarg == old(optarg)
    {
      EndFinishes(total, argv[..], words, firstNonopt, done);
      if firstNonopt != lastNonopt {
        optind := firstNonopt;
      }
    }

    /** What has been scanned, with the rest given. */
    ghost predicate Holds(total: Scan, words: seq<string>, rest: Scan, done: seq<Answer>)
      reads this, argv
    {
      && Placed(argv[..], words, firstNonopt, lastNonopt, optind)
      && Scanned(total, argv[..], firstNonopt, lastNonopt, optind, rest, done)
    }

    /** exchange: the segments and the records of where they are. */
    method ExchangeSegments(ghost total: Scan, ghost words: seq<string>, ghost rest: Scan, ghost done: seq<Answer>)
      requires Holds(total, words, rest, done)
      modifies this, argv
      ensures Holds(total, words, rest, done) && lastNonopt == optind
      ensures optind == old(optind) && nextchar == old(nextchar) && optarg == old(optarg)
      ensures firstNonopt == old(firstNonopt) + (optind - old(lastNonopt))
    {
      ghost var before, first, last := argv[..], firstNonopt, lastNonopt;
      Exchange(argv, firstNonopt, lastNonopt, optind);
      firstNonopt := firstNonopt + (optind - lastNonopt);
      lastNonopt := optind;
      ExchangeKeeps(total, before, words, first, last, optind, rest, done, argv[..], firstNonopt);
    }

    /** Options found behind skipped non-options are moved in front of them. */
    method GatherOptions(ghost total: Scan, ghost words: seq<string>, ghost rest: Scan, ghost done: seq<Answer>)
      requires Holds(total, words, rest, done)
      modifies this, argv
      ensures nextchar == old(nextchar) && optind == old(optind) && optarg == old(optarg)
      ensures Placed(argv[..], words, firstNonopt, optind, optind)
      ensures Scanned(total, argv[..], firstNonopt, optind, optind, rest, done)
    {
      if firstNonopt != lastNonopt && lastNonopt != optind {
        ExchangeSegments(total, words, rest, done);
      } else if lastNonopt != optind {
        NoneSkippedKeeps(total, argv[..], words, firstNonopt, optind, rest, done);
        firstNonopt := optind;
      }
    }

    method SkipNonoptions(optstring: string, ghost words: seq<string>, ghost done: seq<Answer>)
      requires nextchar == "" && Placed(argv[..], words, firstNonopt, optind, optind)
      requires Scanned(Classify(optstring, words, 1), argv[..], firstNonopt, optind, optind,
                       Classify(optstring, words, optind), done)
      modifies this
      ensures nextchar == "" && firstNonopt == old(firstNonopt) && lastNonopt == optind && optarg == old(optarg)
      ensures Standing(optstring, words, done)
      ensures optind == |words| || !NonOption(argv[optind])
    {
      while optind < argv.Length && NonOption(argv[optind])
        invariant nextchar == "" && firstNonopt == old(firstNonopt) && optarg == old(optarg)
        invariant Placed(argv[..], words, firstNonopt, optind, optind)
        invariant Scanned(Classify(optstring, words, 1), argv[..], firstNonopt, optind, optind,
                          Classify(optstring, words, optind), done)
      {
        SkipKeeps(Classify(optstring, words, 1), argv[..], words, firstNonopt, optind, optstring, done);
        optind := optind + 1;
      }
      lastNonopt := optind;
    }

    /** The element "--": moved in front of the skipped non-options, and the end of the scan. */
    method EndOfOptions(ghost total: Scan, ghost words: seq<string>, ghost done: seq<Answer>)
      requires lastNonopt == optind < argv.Length == |words|
      requires Placed(argv[..], words, firstNonopt, optind, optind + 1)
      requires Scanned(total, argv[..], firstNonopt, optind, optind + 1, Scan([], words[optind + 1..], []), done)
      modifies this, argv
      ensures Holds(total, words, Scan([], [], []), done) && lastNonopt == optind == argv.Length
      ensures nextchar == old(nextchar) && optarg == old(optarg)
    {
      ghost var rest := Scan([], words[optind + 1..], []);
      optind := optind + 1;
      if firstNonopt != lastNonopt && lastNonopt != optind {
        ExchangeSegments(total, words, rest, done);
      } else if firstNonopt == lastNonopt {
        NoneSkippedKeeps(total, argv[..], words, firstNonopt, optind, rest, done);
        firstNonopt := optind;
      }
      TailIsNonopts(total, argv[..], words, firstNonopt, optind, done);
      lastNonopt := argv.Length;
      optind := argv.Length;
    }

    /** Looks at and handles the next short option character. */
    method ShortOption(optstring: string) returns (ret: char)
      requires nextchar != "" && optind < argv.Length && optarg == NoArg
      modifies this
      ensures firstNonopt == old(firstNonopt) && lastNonopt == old(lastNonopt)
      ensures var c := old(nextchar)[0];
              var missing := KindOf(optstring, c) == Required && |old(nextchar)| == 1 && old(optind) + 1 == argv.Length;
              optopt == if KindOf(optstring, c) == Unknown || missing then c else old(optopt)
      ensures var s := StepOf(optstring, old(nextchar), argv[..], old(optind));
              Answer(ret, optarg) == s.answer && nextchar == s.next && optind == old(optind) + s.used
    {
      var c := nextchar[0];
      nextchar := nextchar[1..];
      if nextchar == "" {
        optind := optind + 1;
      }
      var kind := KindOf(optstring, c);
      if kind == Unknown {
        optopt := c;
        return '?';
      }
      if kind == Optional {
        if nextchar != "" {
          optarg := Text(nextchar);
          optind := optind + 1;
        } else {
          optarg := NoArg;
        }
        nextchar := "";
      } else if kind == Required {
        if nextchar != "" {
          optarg := Text(nextchar);
          optind := optind + 1;
        } else if optind == argv.Length {
          optopt := c;
          c := Missing(optstring);
        } else {
          optarg := Text(argv[optind]);
          optind := optind + 1;
        }
        nextchar := "";
      }
      return c;
    }

    /** The next answer from inside an option element. */
    method AnswerNext(optstring: string, ghost words: seq<string>, ghost done: seq<Answer>) returns (c: char)
      requires Standing(optstring, words, done) && nextchar != "" && optarg == NoArg
      modifies this
      ensures Standing(optstring, words, done + [Answer(c, optarg)])
    {
      ghost var s := StepKeeps(Classify(optstring, words, 1), optstring, nextchar, argv[..], words, firstNonopt, lastNonopt,
                               optind, done);
      c := ShortOption(optstring);
    }

    /** One call of getopt. */
    method Getopt(optstring: string, ghost words: seq<string>, ghost done: seq<Answer>) returns (ret: Return)
      requires Modelled(optstring) && Standing(optstring, words, done)
      modifies this, argv
      ensures ret.Done? ==> AtEnd(optstring, words, done) && nextchar == ""
      ensures ret.Got? ==> Standing(optstring, words, done + [Answer(ret.c, optarg)])
    {
      optarg := NoArg;
      if nextchar == "" {
        var more := NextElement(optstring, words, done);
        if !more {
          return Done;
        }
      }
      var c := AnswerNext(optstring, words, done);
      return Got(c);
    }
  }

  /**
   The loop of every caller: calls getopt until the end.  The calls end, the options
   come out in the order of the command line with their arguments, and argv holds the
   program name, the options in that order, and everything else in that order, from
   optind on.
  */
  method ScanAll(optstring: string, arguments: array<string>) returns (answers: seq<Answer>, first: nat)
    requires Modelled(optstring) && arguments.Length >= 1
    modifies arguments
    ensures Finished(Classify(optstring, old(arguments[..]), 1), arguments[..], old(arguments[..]), first, answers)
  {
    ghost var words := arguments[..];
    ghost var total := Classify(optstring, words, 1);
    var scanner := new Scanner(arguments);
    answers := [];
    var ret := Got('?');
    while ret.Got?
      invariant scanner.argv == arguments && fresh(scanner)
      invariant ret.Got? ==> scanner.Standing(optstring, words, answers)
      invariant ret.Done? ==> scanner.AtEnd(optstring, words, answers)
      invariant ret.Got? ==> |answers| <= |total.answers|
      decreases ret.Got?, |total.answers| - |answers|
    {
      ret := scanner.Getopt(optstring, words, answers);
      if ret.Got? {
        answers := answers + [Answer(ret.c, scanner.optarg)];
      }
    }
    first := scanner.optind;
  }

  // ----- What the scan keeps -----

  lemma SplitMultiset(words: seq<string>, i: nat, k: nat)
    requires i <= k <= |words|
    ensures multiset(words[i..]) == multiset(words[i..k]) + multiset(words[k..])
  {
    assert words[i..] == words[i..k] + words[k..];
  }

  lemma {:induction false} ClassifyPermutes(optstring: string, words: seq<string>, i: nat)
    requires i <= |words|
    ensures var r := Classify(optstring, words, i); multiset(r.opts) + multiset(r.nonopts) == multiset(words[i..])
    decreases |words| - i
  {
    if i < |words| {
      SplitMultiset(words, i, i + 1);
      assert words[i..i + 1] == [words[i]];
      if NonOption(words[i]) {
        ClassifyPermutes(optstring, words, i + 1);
      } else if words[i] != "--" {
        PendingPermutes(optstring, words[i][1..], words, i);
      }
    }
  }

  lemma {:induction false} PendingPermutes(optstring: string, next: string, words: seq<string>, i: nat)
    requires next != "" && i < |words|
    ensures var r := Pending(optstring, next, words, i); multiset(r.opts) + multiset(r.nonopts) == multiset(words[i..])
    decreases |words| - i, 0
  {
    var k := i + Parse(optstring, next, words, i).used;
    ClassifyPermutes(optstring, words, k);
    SplitMultiset(words, i, k);
  }

  /** At the end argv is a permutation of what it was. */
  lemma ScanPermutes(optstring: string, words: seq<string>, argv: seq<string>, optind: nat, done: seq<Answer>)
    requires words != [] && Finished(Classify(optstring, words, 1), argv, words, optind, done)
    ensures multiset(argv) == multiset(words)
  {
    ClassifyPermutes(optstring, words, 1);
    assert words == [words[0]] + words[1..];
  }
}
