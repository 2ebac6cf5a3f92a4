/** Lists kept as one string, the words joined by a separator character, and the string
    surgery that edits them. */
module WordList {
  import opened Wrappers

  type Word = string

  // ---------------------------------------------------------------- searching

  /** The first or the last place where `p` occurs in `s`, or -1. */
  function Find<T(==)>(first: bool, s: seq<T>, p: seq<T>): (r: int)
    requires p != []
    ensures -1 <= r <= |s| - |p| || r == -1
  {
    if |s| < |p| then -1
    else
      var r := Find(first, s[1..], p);
      if r >= 0 && !(first && p <= s) then r + 1
      else if p <= s then 0
      else -1
  }

  lemma SliceOfTail<T>(s: seq<T>, i: nat, n: nat)
    requires 0 < i && i + n <= |s|
    ensures s[i..i + n] == s[1..][i - 1..i - 1 + n]
  {
    var a, b := s[i..i + n], s[1..][i - 1..i - 1 + n];
    assert |a| == |b|;
    forall m | 0 <= m < n
      ensures a[m] == b[m]
    {
    }
  }

  /** A place found is an occurrence. */
  lemma {:induction false} FindMatches<T>(first: bool, s: seq<T>, p: seq<T>)
    requires p != []
    ensures var r := Find(first, s, p); r >= 0 ==> s[r..r + |p|] == p
  {
    var r := Find(first, s, p);
    if r > 0 {
      FindMatches(first, s[1..], p);
      SliceOfTail(s, r, |p|);
    }
  }

  /** No occurrence lies before the first, after the last, or anywhere when none is found. */
  lemma {:induction false} FindMeans<T>(first: bool, s: seq<T>, p: seq<T>, i: nat)
    requires p != [] && i + |p| <= |s| && s[i..i + |p|] == p
    ensures var r := Find(first, s, p); 0 <= r && if first then r <= i else i <= r
  {
    if i > 0 {
      SliceOfTail(s, i, |p|);
      FindMeans(first, s[1..], p, i - 1);
    } else {
      assert p == s[..|p|];
    }
  }

  /** `${list%%p*}` for the first occurrence, `${list%p*}` for the last. */
  function LeftOf(first: bool, list: string, p: string): string
    requires p != ""
  {
    var at := Find(first, list, p);
    if at < 0 then list else list[..at]
  }

  /** `${list#*p}` for the first occurrence, `${list##*p}` for the last. */
  function RightOf(first: bool, list: string, p: string): string
    requires p != ""
  {
    var at := Find(first, list, p);
    if at < 0 then list else list[at + |p|..]
  }

  function Between(sep: char, word: Word): string {
    [sep] + word + [sep]
  }

  // ---------------------------------------------------------------- the encoding

  ghost predicate IsWord(sep: char, word: string) {
    word != "" && sep !in word
  }

  ghost predicate AreWords(sep: char, words: seq<Word>) {
    forall i :: 0 <= i < |words| ==> IsWord(sep, words[i])
  }

  /** Every word behind a separator. */
  function Open(sep: char, words: seq<Word>): string {
    if words == [] then "" else [sep] + words[0] + Open(sep, words[1..])
  }

  /** Every word between separators, `rest` behind the last separator. */
  function Enc(sep: char, words: seq<Word>, rest: string): (r: string)
    ensures r != "" && r[0] == sep
  {
    if words == [] then [sep] + rest else [sep] + words[0] + Enc(sep, words[1..], rest)
  }

  /** The value of the list variable. */
  function Join(sep: char, words: seq<Word>): string {
    if words == [] then ""
    else if |words| == 1 then words[0]
    else words[0] + [sep] + Join(sep, words[1..])
  }

  /** The words a value holds: the reading a user of the variable makes. */
  function Words(sep: char, value: string): seq<Word> {
    if value == "" then [] else Split(sep, value, "")
  }

  function Split(sep: char, value: string, word: Word): seq<Word> {
    if value == "" then [word]
    else if value[0] == sep then [word] + Split(sep, value[1..], "")
    else Split(sep, value[1..], word + [value[0]])
  }

  lemma {:induction false} SplitWord(sep: char, word: Word, value: string, sofar: Word)
    requires sep !in word
    ensures Split(sep, word + value, sofar) == Split(sep, value, sofar + word)
  {
    if word == "" {
      assert word + value == value && sofar + word == sofar;
    } else {
      assert (word + value)[1..] == word[1..] + value;
      SplitWord(sep, word[1..], value, sofar + [word[0]]);
      assert sofar + [word[0]] + word[1..] == sofar + word;
    }
  }

  lemma {:induction false} SplitJoin(sep: char, words: seq<Word>)
    requires AreWords(sep, words) && words != []
    ensures Split(sep, Join(sep, words), "") == words && Join(sep, words) != ""
  {
    var word := words[0];
    assert "" + word == word;
    if |words| == 1 {
      assert word + "" == word;
      SplitWord(sep, word, "", "");
    } else {
      SplitJoin(sep, words[1..]);
      var rest := [sep] + Join(sep, words[1..]);
      assert Join(sep, words) == word + rest;
      SplitWord(sep, word, rest, "");
      assert rest[1..] == Join(sep, words[1..]);
    }
  }

  /** Reading back a joined list gives the list, so a value stands for one list only. */
  lemma WordsOfJoin(sep: char, words: seq<Word>)
    requires AreWords(sep, words)
    ensures Words(sep, Join(sep, words)) == words
  {
    if words != [] {
      SplitJoin(sep, words);
    }
  }

  lemma {:induction false} EncSplit(sep: char, a: seq<Word>, b: seq<Word>, rest: string)
    ensures Enc(sep, a + b, rest) == Open(sep, a) + Enc(sep, b, rest)
  {
    if a == [] {
      assert a + b == b;
    } else {
      EncSplit(sep, a[1..], b, rest);
      assert (a + b)[0] == a[0] && (a + b)[1..] == a[1..] + b;
      Concat3([sep] + a[0], Open(sep, a[1..]), Enc(sep, b, rest));
    }
  }

  lemma {:induction false} OpenSplit(sep: char, a: seq<Word>, b: seq<Word>)
    ensures Open(sep, a + b) == Open(sep, a) + Open(sep, b)
  {
    if a == [] {
      assert a + b == b;
    } else {
      OpenSplit(sep, a[1..], b);
      assert (a + b)[0] == a[0] && (a + b)[1..] == a[1..] + b;
      Concat3([sep] + a[0], Open(sep, a[1..]), Open(sep, b));
    }
  }

  lemma {:induction false} EncIsOpen(sep: char, words: seq<Word>, rest: string)
    ensures Enc(sep, words, rest) == Open(sep, words) + [sep] + rest
  {
    EncSplit(sep, words, [], rest);
    assert words + [] == words;
  }

  lemma {:induction false} OpenIsJoin(sep: char, words: seq<Word>)
    requires words != []
    ensures Open(sep, words) == [sep] + Join(sep, words)
  {
    if |words| > 1 {
      OpenIsJoin(sep, words[1..]);
    } else {
      assert words[1..] == [];
    }
  }

  // ---------------------------------------------------------------- finding a word

  lemma {:induction false} FindSkips(first: bool, sep: char, u: string, s: string, word: Word)
    requires sep !in u
    ensures Find(first, u + s, Between(sep, word)) ==
            var r := Find(first, s, Between(sep, word)); if r < 0 then -1 else |u| + r
  {
    if u == "" {
      assert u + s == s;
    } else {
      FindSkips(first, sep, u[1..], s, word);
      assert (u + s)[1..] == u[1..] + s;
      assert (u + s)[0] == u[0] != sep;
    }
  }

  /** A separated word stands at the front exactly when it is the first word. */
  lemma AtFront(sep: char, word: Word, x: Word, t: string)
    requires sep !in word && sep !in x && t != "" && t[0] == sep
    ensures Between(sep, word) <= [sep] + x + t <==> x == word
  {
    var s, p := [sep] + x + t, Between(sep, word);
    UpToWord(sep, x, t);
    if p <= s {
      var more := s[|p|..];
      assert s == p + more;
      assert s[1..] == word + ([sep] + more) == x + t;
      UpToWord(sep, word, [sep] + more);
    }
    assert x == word ==> s == p + t[1..];
  }

  function UpTo(sep: char, s: string): string {
    if s == "" || s[0] == sep then "" else [s[0]] + UpTo(sep, s[1..])
  }

  lemma {:induction false} UpToWord(sep: char, word: Word, t: string)
    requires sep !in word && t != "" && t[0] == sep
    ensures UpTo(sep, word + t) == word
  {
    if word == "" {
      assert word + t == t;
    } else {
      assert (word + t)[1..] == word[1..] + t;
      UpToWord(sep, word[1..], t);
    }
  }

  lemma LastOfPrefix(p: string, s: string)
    requires |p| >= 2
    ensures p <= s ==> p[|p| - 1] in s[1..]
  {
    if p <= s {
      assert s[1..][|p| - 2] == p[|p| - 1];
    }
  }

  lemma FirstOfPrefix(p: string, s: string)
    requires p != "" && s != ""
    ensures p <= s ==> p[0] == s[0]
  {
  }

  lemma {:induction false} NotWithin(first: bool, sep: char, s: string, word: Word)
    requires sep !in s
    ensures Find(first, s, Between(sep, word)) == -1
  {
    if s != "" {
      NotWithin(first, sep, s[1..], word);
      FirstOfPrefix(Between(sep, word), s);
    }
  }

  lemma NotInRest(first: bool, sep: char, rest: string, word: Word)
    requires sep !in rest
    ensures Find(first, [sep] + rest, Between(sep, word)) == -1
  {
    var s, p := [sep] + rest, Between(sep, word);
    assert s[1..] == rest;
    LastOfPrefix(p, s);
    NotWithin(first, sep, rest, word);
  }

  /** The separated word occurs in the encoded list where the word occurs in the list. */
  lemma {:induction false} FindWord(first: bool, sep: char, words: seq<Word>, rest: string, word: Word)
    requires AreWords(sep, words) && sep !in rest && sep !in word
    ensures Find(first, Enc(sep, words, rest), Between(sep, word)) ==
            var k := Find(first, words, [word]); if k < 0 then -1 else |Open(sep, words[..k])|
  {
    var p := Between(sep, word);
    if words == [] {
      NotInRest(first, sep, rest, word);
    } else {
      var x, t := words[0], Enc(sep, words[1..], rest);
      var s := [sep] + x + t;
      FindWord(first, sep, words[1..], rest, word);
      FindSkips(first, sep, x, t, word);
      AtFront(sep, word, x, t);
      assert s[1..] == x + t;
      assert [word] <= words <==> x == word;
      var k := Find(first, words, [word]);
      if k > 0 {
        assert words[..k][1..] == words[1..][..k - 1];
        assert Open(sep, words[..k]) == [sep] + x + Open(sep, words[1..][..k - 1]);
      }
    }
  }

  /** What follows the separator at the front of an encoded list. */
  function Tail(sep: char, words: seq<Word>, rest: string): string {
    Enc(sep, words, rest)[1..]
  }

  /** Cutting the string at a word cuts the list there; an absent word cuts nothing. */
  lemma Cuts(first: bool, sep: char, u: string, words: seq<Word>, rest: string, word: Word)
    requires AreWords(sep, words) && sep !in u && sep !in rest && sep !in word
    ensures var list, k := u + Enc(sep, words, rest), Find(first, words, [word]);
            && LeftOf(first, list, Between(sep, word)) == (if k < 0 then list else u + Open(sep, words[..k]))
            && RightOf(first, list, Between(sep, word)) == (if k < 0 then list else Tail(sep, words[k + 1..], rest))
  {
    var list, k := u + Enc(sep, words, rest), Find(first, words, [word]);
    FindWord(first, sep, words, rest, word);
    FindSkips(first, sep, u, Enc(sep, words, rest), word);
    if k >= 0 {
      IndexMeans(first, words, word);
      Opens(sep, words, rest, k);
      var left, t := Open(sep, words[..k]), Enc(sep, words[k + 1..], rest);
      CutAt(sep, u + left, word, t);
      hide Enc, Open, Find;
      Concat3(u, left, [sep] + word + t);
    }
  }

  lemma Opens(sep: char, words: seq<Word>, rest: string, k: nat)
    requires k < |words|
    ensures Enc(sep, words, rest) == Open(sep, words[..k]) + ([sep] + words[k] + Enc(sep, words[k + 1..], rest))
  {
    assert words == words[..k] + words[k..];
    EncSplit(sep, words[..k], words[k..], rest);
    assert words[k..][0] == words[k] && words[k..][1..] == words[k + 1..];
  }

  lemma CutAt(sep: char, left: string, word: Word, t: string)
    requires t != ""  && t[0] == sep
    ensures var list := left + ([sep] + word + t);
            && |left| + |Between(sep, word)| <= |list|
            && list[..|left|] == left
            && list[|left| + |Between(sep, word)|..] == t[1..]
  {
  }

  // ---------------------------------------------------------------- the list variable

  /** `eval list=...`: the value between separators, nothing for an empty value. */
  function Load(sep: char, value: string): string {
    if value == "" then "" else [sep] + value + [sep]
  }

  /** `${list%sep}`, then `${list#sep}`. */
  function Strip(sep: char, list: string): string {
    var l := if list != "" && list[|list| - 1] == sep then list[..|list| - 1] else list;
    if l != "" && l[0] == sep then l[1..] else l
  }

  function Loaded(sep: char, words: seq<Word>): string {
    if words == [] then "" else Enc(sep, words, "")
  }

  lemma LoadOfJoin(sep: char, words: seq<Word>)
    requires AreWords(sep, words)
    ensures Load(sep, Join(sep, words)) == Loaded(sep, words)
  {
    if words != [] {
      SplitJoin(sep, words);
      EncIsOpen(sep, words, "");
      OpenIsJoin(sep, words);
      assert Open(sep, words) + [sep] + "" == Open(sep, words) + [sep];
    }
  }

  lemma {:induction false} JoinEnds(sep: char, words: seq<Word>)
    requires AreWords(sep, words) && words != []
    ensures var v := Join(sep, words); v != "" && v[0] != sep && v[|v| - 1] != sep
  {
    assert IsWord(sep, words[0]);
    if |words| > 1 {
      JoinEnds(sep, words[1..]);
    }
  }

  lemma StripJoin(sep: char, words: seq<Word>)
    requires AreWords(sep, words) && words != []
    ensures var v := Join(sep, words);
            Strip(sep, v) == v && Strip(sep, [sep] + v) == v && Strip(sep, v + [sep]) == v && Strip(sep, [sep] + v + [sep]) == v
  {
    JoinEnds(sep, words);
    var v := Join(sep, words);
    assert ([sep] + v)[1..] == v;
    assert (v + [sep])[..|v|] == v;
    assert ([sep] + v + [sep])[..|v| + 1] == [sep] + v;
  }

  lemma StripLoaded(sep: char, words: seq<Word>)
    requires AreWords(sep, words)
    ensures Strip(sep, Loaded(sep, words)) == Join(sep, words)
    ensures Strip(sep, Enc(sep, words, "")) == Join(sep, words)
  {
    if words != [] {
      LoadOfJoin(sep, words);
      StripJoin(sep, words);
      SplitJoin(sep, words);
    }
  }

  lemma OpenAtEnd(sep: char, words: seq<Word>, word: Word)
    ensures Enc(sep, words, word) == [sep] + Join(sep, words + [word])
  {
    EncIsOpen(sep, words, word);
    OpenSplit(sep, words, [word]);
    OpenIsJoin(sep, words + [word]);
    OneOpen(sep, word);
    hide Enc, Open, Join;
    Concat3(Open(sep, words), [sep], word);
  }

  lemma OpenAtFront(sep: char, words: seq<Word>, word: Word)
    requires AreWords(sep, words) && IsWord(sep, word)
    ensures word + Enc(sep, words, "") == Join(sep, [word] + words) + [sep]
  {
    var all := [word] + words;
    assert all[0] == word && all[1..] == words;
    assert Enc(sep, all, "") == [sep] + word + Enc(sep, words, "");
    LoadOfJoin(sep, all);
    SplitJoin(sep, all);
    var a, b := word + Enc(sep, words, ""), Join(sep, all) + [sep];
    hide Enc, Join;
    Concat3([sep], word, Enc(sep, words, ""));
    Concat3([sep], Join(sep, all), [sep]);
    assert a == ([sep] + a)[1..] && b == ([sep] + b)[1..];
  }

  /** A list missing its last or its first separator still strips to the right value. */
  lemma StripOpenEnded(sep: char, words: seq<Word>, word: Word)
    requires AreWords(sep, words) && IsWord(sep, word)
    ensures Strip(sep, Enc(sep, words, word)) == Join(sep, words + [word])
    ensures Strip(sep, word + Enc(sep, words, "")) == Join(sep, [word] + words)
  {
    OpenAtEnd(sep, words, word);
    OpenAtFront(sep, words, word);
    StripJoin(sep, words + [word]);
    StripJoin(sep, [word] + words);
  }

  lemma OneOpen(sep: char, word: Word)
    ensures Open(sep, [word]) == [sep] + word
  {
    assert [word][1..] == [];
  }

  // ---------------------------------------------------------------- add and insert

  function Put(front: bool, words: seq<Word>, word: Word): seq<Word> {
    if front then [word] + words else words + [word]
  }

  /** One round of wordInsert__ (`front`) or wordAdd__ on the string. */
  function EditStep(front: bool, force: bool, sep: char, list: string, word: Word): string {
    var left := LeftOf(true, list, Between(sep, word));
    var right := RightOf(false, list, Between(sep, word));
    if list == "" then Between(sep, word)
    else if left == "" && right == "" then list
    else if left == right then (if front then [sep] + word + left else left + word + [sep])
    else if !force then list
    else if front then word + left + [sep] + right
    else left + [sep] + right + word
  }

  /** The rounds of a call: up to the first empty word. */
  function EditRun(front: bool, force: bool, sep: char, list: string, args: seq<Word>): string
    decreases |args|
  {
    if args == [] || args[0] == "" then list
    else EditRun(front, force, sep, EditStep(front, force, sep, list, args[0]), args[1..])
  }

  lemma {:induction false} OpenEnd(sep: char, words: seq<Word>)
    requires AreWords(sep, words) && words != []
    ensures var o := Open(sep, words); o != "" && o[0] == sep && o[|o| - 1] != sep
  {
    OpenIsJoin(sep, words);
    JoinEnds(sep, words);
  }

  lemma TailEnds(sep: char, words: seq<Word>, rest: string)
    requires AreWords(sep, words) && sep !in rest
    ensures Tail(sep, words, rest) == "" <==> words == [] && rest == ""
    ensures Tail(sep, words, rest) != "" ==> Tail(sep, words, rest)[0] != sep
    ensures var t := Tail(sep, words, ""); t != "" ==> t[|t| - 1] == sep
  {
    if words == [] {
      assert Tail(sep, words, rest) == rest && Tail(sep, words, "") == "";
    } else {
      assert IsWord(sep, words[0]);
      assert Tail(sep, words, rest) == words[0] + Enc(sep, words[1..], rest);
      EncIsOpen(sep, words, "");
    }
  }

  /** The two sides of a word differ unless nothing lies on either side. */
  lemma SidesDiffer(sep: char, u: string, pre: seq<Word>, post: seq<Word>, rest: string)
    requires AreWords(sep, pre) && AreWords(sep, post) && sep !in u && sep !in rest
    requires u == "" || rest == ""
    ensures u + Open(sep, pre) == "" <==> u == "" && pre == []
    ensures Tail(sep, post, rest) == "" <==> post == [] && rest == ""
    ensures u + Open(sep, pre) == Tail(sep, post, rest) ==> Tail(sep, post, rest) == ""
  {
    TailEnds(sep, post, rest);
    if pre != [] {
      OpenEnd(sep, pre);
    }
    var l, t := u + Open(sep, pre), Tail(sep, post, rest);
    assert l != "" && u == "" ==> l[0] == sep;
    assert u != "" ==> l[|l| - 1] != sep;
  }

  /** The string after one round, given the two sides it cut. */
  lemma EditSides(front: bool, force: bool, sep: char, list: string, word: Word, left: string, right: string)
    requires left == LeftOf(true, list, Between(sep, word)) && right == RightOf(false, list, Between(sep, word))
    requires list != ""
    ensures EditStep(front, force, sep, list, word) ==
            if left == "" && right == "" then list
            else if left == right then (if front then [sep] + word + left else left + word + [sep])
            else if !force then list
            else if front then word + (left + ([sep] + right))
            else (left + ([sep] + right)) + word
  {
    var r := [sep] + right;
    assert left + [sep] + right == left + r;
    assert word + left + [sep] + right == word + (left + r);
  }

  /** What one round does to any list between `u` and `rest`: an absent word. */
  lemma EditAbsent(front: bool, force: bool, sep: char, u: string, words: seq<Word>, rest: string, word: Word)
    requires AreWords(sep, words) && IsWord(sep, word) && sep !in u && sep !in rest
    requires word !in words
    ensures var list := u + Enc(sep, words, rest);
            EditStep(front, force, sep, list, word) == if front then [sep] + word + list else list + word + [sep]
  {
    var list := u + Enc(sep, words, rest);
    FirstAndLast(words, word);
    Cuts(true, sep, u, words, rest, word);
    Cuts(false, sep, u, words, rest, word);
    EditSides(front, force, sep, list, word, list, list);
  }

  lemma CutPresent(first: bool, sep: char, u: string, words: seq<Word>, rest: string, word: Word, k: nat)
    requires AreWords(sep, words) && IsWord(sep, word) && sep !in u && sep !in rest
    requires k == Find(first, words, [word]) && k < |words|
    ensures LeftOf(first, u + Enc(sep, words, rest), Between(sep, word)) == u + Open(sep, words[..k])
    ensures RightOf(first, u + Enc(sep, words, rest), Between(sep, word)) == Tail(sep, words[k + 1..], rest)
  {
    Cuts(first, sep, u, words, rest, word);
  }

  /** A present word: all between its first and last occurrence goes. */
  lemma EditPresent(front: bool, force: bool, sep: char, u: string, words: seq<Word>, rest: string, word: Word, k: nat, m: nat)
    requires AreWords(sep, words) && IsWord(sep, word) && sep !in u && sep !in rest
    requires u == "" || rest == ""
    requires k == Find(true, words, [word]) && m == Find(false, words, [word]) && k <= m < |words|
    ensures EditStep(front, force, sep, u + Enc(sep, words, rest), word) ==
            (if !force || (u == "" && rest == "" && k == 0 && m == |words| - 1) then u + Enc(sep, words, rest)
             else if front then word + (u + Enc(sep, words[..k] + words[m + 1..], rest))
             else (u + Enc(sep, words[..k] + words[m + 1..], rest)) + word)
  {
    CutPresent(true, sep, u, words, rest, word, k);
    CutPresent(false, sep, u, words, rest, word, m);
    hide *;
    EditPresentAt(front, force, sep, u, words, rest, word, k, m);
  }

  lemma EditPresentAt(front: bool, force: bool, sep: char, u: string, words: seq<Word>, rest: string, word: Word, k: nat, m: nat)
    requires AreWords(sep, words) && sep !in u && sep !in rest && (u == "" || rest == "")
    requires k <= m < |words|
    requires LeftOf(true, u + Enc(sep, words, rest), Between(sep, word)) == u + Open(sep, words[..k])
    requires RightOf(false, u + Enc(sep, words, rest), Between(sep, word)) == Tail(sep, words[m + 1..], rest)
    ensures EditStep(front, force, sep, u + Enc(sep, words, rest), word) ==
            (if !force || (u == "" && rest == "" && k == 0 && m == |words| - 1) then u + Enc(sep, words, rest)
             else if front then word + (u + Enc(sep, words[..k] + words[m + 1..], rest))
             else (u + Enc(sep, words[..k] + words[m + 1..], rest)) + word)
  {
    hide Enc, Open, LeftOf, RightOf, EditStep, Tail, Between;
    var list := u + Enc(sep, words, rest);
    var pre, post := words[..k], words[m + 1..];
    var left, right := u + Open(sep, pre), Tail(sep, post, rest);
    assert AreWords(sep, pre) && AreWords(sep, post);
    SidesDiffer(sep, u, pre, post, rest);
    Rejoined(sep, u, pre, post, rest);
    EditSides(front, force, sep, list, word, left, right);
  }

  lemma Rejoined(sep: char, u: string, pre: seq<Word>, post: seq<Word>, rest: string)
    ensures u + Open(sep, pre) + ([sep] + Tail(sep, post, rest)) == u + Enc(sep, pre + post, rest)
  {
    EncSplit(sep, pre, post, rest);
    assert Enc(sep, post, rest) == [sep] + Tail(sep, post, rest);
    hide Enc, Open, Tail;
    Concat3(u, Open(sep, pre), [sep] + Tail(sep, post, rest));
  }

  lemma {:induction false} IndexMeans(first: bool, words: seq<Word>, word: Word)
    ensures var k := Find(first, words, [word]);
            && (k < 0 <==> word !in words)
            && (k >= 0 ==> k < |words| && words[k] == word)
  {
    if words != [] {
      IndexMeans(first, words[1..], word);
      assert [word] <= words <==> words[0] == word;
    }
  }

  lemma FirstAndLast(words: seq<Word>, word: Word)
    ensures var k, m := Find(true, words, [word]), Find(false, words, [word]);
            && (k < 0 <==> word !in words) && (m < 0 <==> word !in words)
            && (k >= 0 ==> k <= m < |words| && words[k] == word == words[m])
  {
    IndexMeans(true, words, word);
    IndexMeans(false, words, word);
    var k, m := Find(true, words, [word]), Find(false, words, [word]);
    if m >= 0 {
      FindMeans(true, words, [word], m);
    }
  }

  ghost predicate Unique(words: seq<Word>) {
    forall i, j :: 0 <= i < j < |words| ==> words[i] != words[j]
  }

  function Without(words: seq<Word>, word: Word): seq<Word> {
    var k := Find(true, words, [word]);
    if k < 0 then words else words[..k] + words[k + 1..]
  }

  /** Unforced: a missing word goes to its end of the list, a present one stays. */
  function Added(front: bool, words: seq<Word>, word: Word): seq<Word> {
    if word in words then words else Put(front, words, word)
  }

  /** Forced: the word goes to its end of the list in any case. */
  function Moved(front: bool, words: seq<Word>, word: Word): seq<Word> {
    Put(front, Without(words, word), word)
  }

  lemma DropOne(words: seq<Word>, k: nat)
    requires k < |words| && Unique(words)
    ensures Unique(words[..k] + words[k + 1..]) && words[k] !in words[..k] + words[k + 1..]
  {
    var rest := words[..k] + words[k + 1..];
    assert forall i :: 0 <= i < |rest| ==> rest[i] == words[if i < k then i else i + 1];
  }

  lemma WithoutKeeps(sep: char, words: seq<Word>, word: Word)
    requires AreWords(sep, words) && Unique(words)
    ensures AreWords(sep, Without(words, word)) && Unique(Without(words, word)) && word !in Without(words, word)
    ensures word !in words ==> Without(words, word) == words
    ensures word in words ==> |Without(words, word)| == |words| - 1
  {
    FirstAndLast(words, word);
    var k := Find(true, words, [word]);
    if k >= 0 {
      DropOne(words, k);
    }
  }

  /** Every other word stays. */
  lemma WithoutOthers(words: seq<Word>, word: Word, other: Word)
    requires other != word
    ensures other in Without(words, word) <==> other in words
  {
    FirstAndLast(words, word);
    var k := Find(true, words, [word]);
    if k >= 0 {
      assert words == words[..k] + [word] + words[k + 1..];
    }
  }

  lemma PutUnique(front: bool, words: seq<Word>, word: Word)
    requires Unique(words) && word !in words
    ensures Unique(Put(front, words, word))
  {
    var p := Put(front, words, word);
    if front {
      forall i, j | 0 <= i < j < |p|
        ensures p[i] != p[j]
      {
        assert p[j] == words[j - 1];
        assert i > 0 ==> p[i] == words[i - 1];
      }
    }
  }

  lemma MovedKeeps(front: bool, sep: char, words: seq<Word>, word: Word)
    requires AreWords(sep, words) && IsWord(sep, word) && Unique(words)
    ensures AreWords(sep, Moved(front, words, word)) && Unique(Moved(front, words, word))
  {
    WithoutKeeps(sep, words, word);
    PutUnique(front, Without(words, word), word);
  }

  lemma EncSnoc(sep: char, words: seq<Word>, rest: string, word: Word)
    ensures Enc(sep, words, rest) + word == Enc(sep, words, rest + word)
    ensures Enc(sep, words, rest) + word + [sep] == Enc(sep, words + [rest + word], "")
  {
    EncIsOpen(sep, words, rest);
    EncIsOpen(sep, words, rest + word);
    EncSplit(sep, words, [rest + word], "");
    var all := [rest + word];
    assert all[0] == rest + word && all[1..] == [];
    assert Enc(sep, all, "") == [sep] + (rest + word) + ([sep] + "");
    var o := Open(sep, words);
    hide Enc, Open;
    Concat3(o, [sep], rest);
    Concat3(o, [sep] + rest, word);
    Concat3([sep], rest, word);
    Concat3(o, [sep], rest + word);
    assert [sep] + "" == [sep];
    Concat3(o, [sep] + (rest + word), [sep]);
  }

  lemma EncCons(sep: char, words: seq<Word>, word: Word)
    ensures Enc(sep, [word] + words, "") == [sep] + word + Enc(sep, words, "")
  {
    var all := [word] + words;
    assert all[0] == word && all[1..] == words;
  }

  lemma PutOnLoaded(front: bool, sep: char, words: seq<Word>, word: Word)
    requires IsWord(sep, word)
    ensures (if front then [sep] + word + Enc(sep, words, "") else Enc(sep, words, "") + word + [sep]) == Loaded(sep, Put(front, words, word))
  {
    EncCons(sep, words, word);
    EncSnoc(sep, words, "", word);
    assert "" + word == word;
  }

  lemma EditEmpty(front: bool, force: bool, sep: char, word: Word)
    ensures EditStep(front, force, sep, "", word) == Loaded(sep, Put(front, [], word))
  {
    assert Put(front, [], word) == [word];
    assert [word][0] == word && [word][1..] == [];
    assert Enc(sep, [word], "") == [sep] + word + ([sep] + "");
    assert [sep] + "" == [sep];
  }

  /** An unforced round on a whole list is the sequence operation. */
  lemma AddStepRefines(front: bool, sep: char, words: seq<Word>, word: Word)
    requires AreWords(sep, words) && IsWord(sep, word)
    ensures EditStep(front, false, sep, Loaded(sep, words), word) == Loaded(sep, Added(front, words, word))
    ensures AreWords(sep, Added(front, words, word))
  {
    if words == [] {
      EditEmpty(front, false, sep, word);
    } else {
      var list := Enc(sep, words, "");
      assert "" + list == list;
      if word in words {
        FirstAndLast(words, word);
        EditPresent(front, false, sep, "", words, "", word, Find(true, words, [word]), Find(false, words, [word]));
      } else {
        EditAbsent(front, false, sep, "", words, "", word);
        PutOnLoaded(front, sep, words, word);
      }
    }
  }

  /** A forced round on a list without duplicates.  Moving a word leaves the string
      without the separator at that end. */
  lemma ForcedStep(front: bool, sep: char, words: seq<Word>, word: Word)
    requires AreWords(sep, words) && IsWord(sep, word) && Unique(words)
    ensures EditStep(front, true, sep, Loaded(sep, words), word) ==
            if word !in words || words == [word] then Loaded(sep, Moved(front, words, word))
            else if front then word + Enc(sep, Without(words, word), "")
            else Enc(sep, Without(words, word), word)
  {
    hide Enc, EditStep, Without, Put;
    if words == [] {
      WithoutKeeps(sep, words, word);
      EditEmpty(front, true, sep, word);
    } else if word in words {
      MovePresent(front, sep, words, word);
    } else {
      var list := Enc(sep, words, "");
      assert "" + list == list;
      WithoutKeeps(sep, words, word);
      EditAbsent(front, true, sep, "", words, "", word);
      PutOnLoaded(front, sep, words, word);
    }
  }

  lemma MovePresent(front: bool, sep: char, words: seq<Word>, word: Word)
    requires AreWords(sep, words) && IsWord(sep, word) && Unique(words) && word in words
    ensures EditStep(front, true, sep, Enc(sep, words, ""), word) ==
            if words == [word] then Loaded(sep, Moved(front, words, word))
            else if front then word + Enc(sep, Without(words, word), "")
            else Enc(sep, Without(words, word), word)
  {
    var list, kept := Enc(sep, words, ""), Enc(sep, Without(words, word), "");
    assert "" + list == list && "" + kept == kept && "" + word == word;
    FirstAndLast(words, word);
    EditPresent(front, true, sep, "", words, "", word, Find(true, words, [word]), Find(false, words, [word]));
    EncSnoc(sep, Without(words, word), "", word);
    if words == [word] {
      assert Moved(front, words, word) == words;
    } else {
      hide Enc, EditStep;
      assert Find(true, words, [word]) == Find(false, words, [word]);
    }
  }

  /** One forced word per call moves it to its end, or adds it there. */
  lemma ForcedOneWord(front: bool, sep: char, words: seq<Word>, word: Word)
    requires AreWords(sep, words) && IsWord(sep, word) && Unique(words)
    ensures Strip(sep, EditRun(front, true, sep, Loaded(sep, words), [word])) == Join(sep, Moved(front, words, word))
  {
    ForcedStep(front, sep, words, word);
    WithoutKeeps(sep, words, word);
    StripLoaded(sep, Moved(front, words, word));
    StripOpenEnded(sep, Without(words, word), word);
    assert [word][1..] == [];
  }

  function Glue(front: bool, word: Word, next: Word): Word {
    if front then next + word else word + next
  }

  lemma GlueIsWord(front: bool, sep: char, word: Word, next: Word)
    requires IsWord(sep, word) && IsWord(sep, next)
    ensures IsWord(sep, Glue(front, word, next)) && Glue(front, word, next) != next
  {
    assert |Glue(front, word, next)| == |word| + |next|;
  }

  /** A forced round with a present word, on a list without duplicates that has more
      than that word in it or around it. */
  lemma ForcedPresent(front: bool, sep: char, u: string, words: seq<Word>, rest: string, word: Word)
    requires AreWords(sep, words) && Unique(words) && IsWord(sep, word) && sep !in u && sep !in rest
    requires u == "" || rest == ""
    requires word in words && (u != "" || rest != "")
    ensures var kept := u + Enc(sep, Without(words, word), rest);
            EditStep(front, true, sep, u + Enc(sep, words, rest), word) == if front then word + kept else kept + word
  {
    FirstAndLast(words, word);
    EditPresent(front, true, sep, u, words, rest, word, Find(true, words, [word]), Find(false, words, [word]));
    hide Find, Enc, EditStep;
    assert Find(true, words, [word]) == Find(false, words, [word]);
  }

  lemma GluedFront(sep: char, kept: seq<Word>, word: Word, next: Word)
    requires AreWords(sep, kept) && Unique(kept) && kept != [] && IsWord(sep, word) && IsWord(sep, next)
    ensures Strip(sep, EditStep(true, true, sep, word + Enc(sep, kept, ""), next)) == Join(sep, [next + word] + Without(kept, next))
  {
    hide Enc, Strip, Join, EditStep, Without;
    var left := Without(kept, next);
    GlueIsWord(true, sep, word, next);
    WithoutKeeps(sep, kept, next);
    if next in kept {
      ForcedPresent(true, sep, word, kept, "", next);
      Concat3(next, word, Enc(sep, left, ""));
      StripOpenEnded(sep, left, next + word);
    } else {
      EditAbsent(true, true, sep, word, kept, "", next);
      EncCons(sep, kept, next + word);
      GlueFront(sep, next, word, Enc(sep, kept, ""));
      StripLoaded(sep, [next + word] + kept);
    }
  }

  lemma GluedEnd(sep: char, kept: seq<Word>, word: Word, next: Word)
    requires AreWords(sep, kept) && Unique(kept) && kept != [] && IsWord(sep, word) && IsWord(sep, next)
    ensures Strip(sep, EditStep(false, true, sep, Enc(sep, kept, word), next)) == Join(sep, Without(kept, next) + [word + next])
  {
    hide Enc, Strip, Join, EditStep, Without;
    var left, list := Without(kept, next), Enc(sep, kept, word);
    GlueIsWord(false, sep, word, next);
    WithoutKeeps(sep, kept, next);
    assert "" + list == list && "" + Enc(sep, left, word) == Enc(sep, left, word);
    if next in kept {
      ForcedPresent(false, sep, "", kept, word, next);
      EncSnoc(sep, left, word, next);
      StripOpenEnded(sep, left, word + next);
    } else {
      EditAbsent(false, true, sep, "", kept, word, next);
      EncSnoc(sep, kept, word, next);
      StripLoaded(sep, kept + [word + next]);
    }
  }

  /** The round after a move glues its word to the moved one. */
  lemma GluedStep(front: bool, sep: char, kept: seq<Word>, word: Word, next: Word)
    requires AreWords(sep, kept) && Unique(kept) && kept != [] && IsWord(sep, word) && IsWord(sep, next)
    ensures var list := if front then word + Enc(sep, kept, "") else Enc(sep, kept, word);
            Strip(sep, EditStep(front, true, sep, list, next)) == Join(sep, Put(front, Without(kept, next), Glue(front, word, next)))
  {
    hide Enc, Strip, Join, EditStep, Without;
    if front {
      GluedFront(sep, kept, word, next);
    } else {
      GluedEnd(sep, kept, word, next);
    }
  }

  lemma GlueFront(sep: char, next: Word, word: Word, t: string)
    ensures [sep] + next + (word + t) == [sep] + (next + word) + t
  {
  }

  /** The words a call looks at: those before the first empty one. */
  function Given(args: seq<Word>): seq<Word> {
    if args == [] || args[0] == "" then [] else [args[0]] + Given(args[1..])
  }

  function AddedAll(front: bool, words: seq<Word>, args: seq<Word>): seq<Word>
    decreases |args|
  {
    if args == [] then words else AddedAll(front, Added(front, words, args[0]), args[1..])
  }

  function MovedAll(front: bool, words: seq<Word>, args: seq<Word>): seq<Word>
    decreases |args|
  {
    if args == [] then words else MovedAll(front, Moved(front, words, args[0]), args[1..])
  }

  lemma {:induction false} AddRunRefines(front: bool, sep: char, words: seq<Word>, args: seq<Word>)
    requires AreWords(sep, words) && AreWords(sep, Given(args))
    ensures EditRun(front, false, sep, Loaded(sep, words), args) == Loaded(sep, AddedAll(front, words, Given(args)))
    ensures AreWords(sep, AddedAll(front, words, Given(args)))
    decreases |args|
  {
    if args != [] && args[0] != "" {
      GivenTail(sep, args);
      AddStepRefines(front, sep, words, args[0]);
      AddRunRefines(front, sep, Added(front, words, args[0]), args[1..]);
    }
  }

  lemma GivenTail(sep: char, args: seq<Word>)
    requires args != [] && args[0] != "" && AreWords(sep, Given(args))
    ensures IsWord(sep, args[0]) && AreWords(sep, Given(args[1..]))
    ensures Given(args)[0] == args[0] && Given(args)[1..] == Given(args[1..])
  {
    assert Given(args) == [args[0]] + Given(args[1..]);
    assert IsWord(sep, Given(args)[0]);
    forall i | 0 <= i < |Given(args[1..])|
      ensures IsWord(sep, Given(args[1..])[i])
    {
      assert Given(args)[i + 1] == Given(args[1..])[i];
    }
  }

  /** wordAdd_ and wordInsert_ on the variable's value. */
  lemma AddRefines(front: bool, sep: char, words: seq<Word>, args: seq<Word>)
    requires AreWords(sep, words) && AreWords(sep, Given(args))
    ensures Strip(sep, EditRun(front, false, sep, Load(sep, Join(sep, words)), args)) == Join(sep, AddedAll(front, words, Given(args)))
    ensures AreWords(sep, AddedAll(front, words, Given(args)))
  {
    LoadOfJoin(sep, words);
    AddRunRefines(front, sep, words, args);
    StripLoaded(sep, AddedAll(front, words, Given(args)));
  }

  function Elements(words: seq<Word>): set<Word> {
    set x | x in words
  }

  /** The words of a call not seen yet, each at its first mention. */
  function Missing(seen: set<Word>, args: seq<Word>): seq<Word>
    decreases |args|
  {
    if args == [] then []
    else if args[0] in seen then Missing(seen, args[1..])
    else [args[0]] + Missing(seen + {args[0]}, args[1..])
  }

  lemma {:induction false} MissingMeans(seen: set<Word>, args: seq<Word>)
    ensures Unique(Missing(seen, args))
    ensures forall x :: x in Missing(seen, args) <==> x in args && x !in seen
    decreases |args|
  {
    if args != [] {
      assert args == [args[0]] + args[1..];
      if args[0] in seen {
        MissingMeans(seen, args[1..]);
      } else {
        MissingMeans(seen + {args[0]}, args[1..]);
        PutUnique(true, Missing(seen + {args[0]}, args[1..]), args[0]);
      }
    }
  }

  /** Exactly the missing words are added, each once; the list itself stays in place. */
  lemma {:induction false} AddsExactlyTheMissing(front: bool, words: seq<Word>, args: seq<Word>)
    ensures var missing := Missing(Elements(words), args);
            AddedAll(front, words, args) == if front then Reverse(missing) + words else words + missing
    decreases |args|
  {
    if args != [] {
      var next := Added(front, words, args[0]);
      AddsExactlyTheMissing(front, next, args[1..]);
      if args[0] in words {
        assert Missing(Elements(words), args) == Missing(Elements(words), args[1..]);
      } else {
        assert Elements(next) == Elements(words) + {args[0]};
        var more := Missing(Elements(next), args[1..]);
        var missing := Missing(Elements(words), args);
        assert missing == [args[0]] + more && missing[1..] == more;
        ReverseFirst(missing);
        hide Elements, Added, AddedAll, Missing;
        Concat3(Reverse(more), [args[0]], words);
        Concat3(words, [args[0]], more);
      }
    }
  }

  lemma {:induction false} AddedIncludes(front: bool, words: seq<Word>, args: seq<Word>, x: Word)
    ensures x in AddedAll(front, words, args) <==> x in words || x in args
    decreases |args|
  {
    if args != [] {
      assert args == [args[0]] + args[1..];
      AddedIncludes(front, Added(front, words, args[0]), args[1..], x);
    }
  }

  lemma {:induction false} AddedUnique(front: bool, words: seq<Word>, args: seq<Word>)
    requires Unique(words)
    ensures Unique(AddedAll(front, words, args))
    decreases |args|
  {
    if args != [] {
      if args[0] !in words {
        PutUnique(front, words, args[0]);
      }
      AddedUnique(front, Added(front, words, args[0]), args[1..]);
    }
  }

  lemma {:induction false} AddingPresentWords(front: bool, words: seq<Word>, args: seq<Word>)
    requires forall x :: x in args ==> x in words
    ensures AddedAll(front, words, args) == words
    decreases |args|
  {
    if args != [] {
      assert args[0] in words;
      AddingPresentWords(front, words, args[1..]);
    }
  }

  /** Adding or inserting the same words again changes nothing. */
  lemma AddTwiceIsOnce(front: bool, words: seq<Word>, args: seq<Word>)
    ensures AddedAll(front, AddedAll(front, words, args), args) == AddedAll(front, words, args)
  {
    forall x | x in args
      ensures x in AddedAll(front, words, args)
    {
      AddedIncludes(front, words, args, x);
    }
    AddingPresentWords(front, AddedAll(front, words, args), args);
  }

  // ---------------------------------------------------------------- forced, several words

  /** No word but the last has to be moved from a longer list when its turn comes. */
  ghost predicate MovesLastOnly(front: bool, words: seq<Word>, args: seq<Word>)
    decreases |args|
  {
    |args| <= 1 || ((args[0] !in words || words == [args[0]]) && MovesLastOnly(front, Moved(front, words, args[0]), args[1..]))
  }

  lemma {:induction false} ForcedRun(front: bool, sep: char, words: seq<Word>, args: seq<Word>)
    requires AreWords(sep, words) && Unique(words) && AreWords(sep, args)
    requires MovesLastOnly(front, words, args)
    ensures Strip(sep, EditRun(front, true, sep, Loaded(sep, words), args)) == Join(sep, MovedAll(front, words, args))
    decreases |args|
  {
    if args == [] {
      StripLoaded(sep, words);
    } else if |args| == 1 {
      assert args == [args[0]] && args[1..] == [];
      ForcedOneWord(front, sep, words, args[0]);
    } else {
      ForcedStep(front, sep, words, args[0]);
      MovedKeeps(front, sep, words, args[0]);
      ForcedRun(front, sep, Moved(front, words, args[0]), args[1..]);
    }
  }

  /** What a forced call with two words makes of a list when the first has to move. */
  lemma ForcedTwoGlue(front: bool, sep: char, words: seq<Word>, word: Word, next: Word)
    requires AreWords(sep, words) && Unique(words) && IsWord(sep, word) && IsWord(sep, next)
    requires word in words && words != [word]
    ensures Strip(sep, EditRun(front, true, sep, Loaded(sep, words), [word, next])) ==
            Join(sep, Put(front, Without(Without(words, word), next), Glue(front, word, next)))
  {
    ForcedStep(front, sep, words, word);
    WithoutKeeps(sep, words, word);
    GluedStep(front, sep, Without(words, word), word, next);
    var args := [word, next];
    assert args[1..] == [next] && [next][1..] == [];
    var first := EditStep(front, true, sep, Loaded(sep, words), word);
    assert EditRun(front, true, sep, first, [next]) == EditStep(front, true, sep, first, next);
  }

  lemma MovedTwo(front: bool, words: seq<Word>, word: Word, next: Word)
    ensures MovedAll(front, words, [word, next]) == Moved(front, Moved(front, words, word), next)
  {
    var one, two := Moved(front, words, word), Moved(front, Moved(front, words, word), next);
    assert [word, next][1..] == [next] && [next][1..] == [];
    hide Moved;
    assert MovedAll(front, one, [next]) == MovedAll(front, two, []);
    assert MovedAll(front, words, [word, next]) == MovedAll(front, one, [next]);
  }

  /** A forced call with two words does what it promises exactly when the first of them
      is not in the list, or is the whole list. */
  lemma ForcedTwoExactly(front: bool, sep: char, words: seq<Word>, word: Word, next: Word)
    requires AreWords(sep, words) && Unique(words) && IsWord(sep, word) && IsWord(sep, next)
    ensures Strip(sep, EditRun(front, true, sep, Loaded(sep, words), [word, next])) == Join(sep, MovedAll(front, words, [word, next]))
            <==> word !in words || words == [word]
  {
    if word !in words || words == [word] {
      MovesTwo(front, words, word, next);
      ForcedRun(front, sep, words, [word, next]);
    } else {
      hide Join, EditRun, Strip, MovedAll;
      ForcedTwoGlue(front, sep, words, word, next);
      MovedTwo(front, words, word, next);
      GluedIsWrong(front, sep, words, word, next);
    }
  }

  lemma MovesTwo(front: bool, words: seq<Word>, word: Word, next: Word)
    requires word !in words || words == [word]
    ensures MovesLastOnly(front, words, [word, next])
  {
    assert [word, next][1..] == [next];
  }

  lemma GluedIsWrong(front: bool, sep: char, words: seq<Word>, word: Word, next: Word)
    requires AreWords(sep, words) && Unique(words) && IsWord(sep, word) && IsWord(sep, next)
    ensures Join(sep, Put(front, Without(Without(words, word), next), Glue(front, word, next)))
            != Join(sep, Moved(front, Moved(front, words, word), next))
  {
    hide Join, Words, Without;
    MovedKeeps(front, sep, words, word);
    MovedKeeps(front, sep, Moved(front, words, word), next);
    WithoutKeeps(sep, words, word);
    WithoutKeeps(sep, Without(words, word), next);
    GlueIsWord(front, sep, word, next);
    var got := Put(front, Without(Without(words, word), next), Glue(front, word, next));
    WordsOfJoin(sep, got);
    WordsOfJoin(sep, Moved(front, Moved(front, words, word), next));
    EndDiffers(front, Without(Without(words, word), next), Glue(front, word, next), Without(Moved(front, words, word), next), next);
  }

  lemma EndDiffers(front: bool, a: seq<Word>, x: Word, b: seq<Word>, y: Word)
    requires x != y
    ensures Put(front, a, x) != Put(front, b, y)
  {
    assert Put(front, a, x)[if front then 0 else |a|] == x;
    assert Put(front, b, y)[if front then 0 else |b|] == y;
  }

  /** A forced call and all its shorter forms do what they promise exactly when no word
      but the last has to be moved from a longer list. */
  lemma {:induction false} ForcedExactly(front: bool, sep: char, words: seq<Word>, args: seq<Word>)
    requires AreWords(sep, words) && Unique(words) && AreWords(sep, args)
    ensures (forall n :: 0 <= n <= |args| ==>
               Strip(sep, EditRun(front, true, sep, Loaded(sep, words), args[..n])) == Join(sep, MovedAll(front, words, args[..n])))
            <==> MovesLastOnly(front, words, args)
    decreases |args|
  {
    if MovesLastOnly(front, words, args) {
      forall n | 0 <= n <= |args|
        ensures Strip(sep, EditRun(front, true, sep, Loaded(sep, words), args[..n])) == Join(sep, MovedAll(front, words, args[..n]))
      {
        PrefixMovesLastOnly(front, words, args, n);
        ForcedRun(front, sep, words, args[..n]);
      }
    } else if args[0] in words && words != [args[0]] {
      assert args[..2] == [args[0], args[1]];
      ForcedTwoExactly(front, sep, words, args[0], args[1]);
    } else {
      var next := Moved(front, words, args[0]);
      ForcedStep(front, sep, words, args[0]);
      MovedKeeps(front, sep, words, args[0]);
      ForcedExactly(front, sep, next, args[1..]);
      var n :| 0 <= n <= |args[1..]| && Strip(sep, EditRun(front, true, sep, Loaded(sep, next), args[1..][..n])) != Join(sep, MovedAll(front, next, args[1..][..n]));
      assert args[..n + 1][1..] == args[1..][..n];
    }
  }

  lemma {:induction false} PrefixMovesLastOnly(front: bool, words: seq<Word>, args: seq<Word>, n: nat)
    requires MovesLastOnly(front, words, args) && n <= |args|
    ensures MovesLastOnly(front, words, args[..n])
    decreases |args|
  {
    if n > 1 {
      PrefixMovesLastOnly(front, Moved(front, words, args[0]), args[1..], n - 1);
      assert args[..n][1..] == args[1..][..n - 1];
    }
  }

  lemma JoinTwo(sep: char, a: Word, b: Word)
    ensures Join(sep, [a, b]) == a + [sep] + b
  {
    assert [a, b][1..] == [b];
  }

  /** Two forced words at once, on a list that has the first: forcing a and c into
      "a:b" leaves "b:ac". */
  lemma ForcedTwoLosesASeparator(sep: char, a: Word, b: Word, c: Word)
    requires AreWords(sep, [a, b, c]) && Unique([a, b, c])
    ensures Strip(sep, EditRun(false, true, sep, Load(sep, a + [sep] + b), [a, c])) == b + [sep] + (a + c)
    ensures Words(sep, b + [sep] + (a + c)) == [b, a + c]
  {
    hide EditRun, Strip, Load, Words, Split, Join, Enc, Find, Without;
    var three := [a, b, c];
    assert IsWord(sep, three[0]) && IsWord(sep, three[1]) && IsWord(sep, three[2]);
    assert three[0] != three[1] && three[0] != three[2] && three[1] != three[2];
    JoinTwo(sep, a, b);
    JoinTwo(sep, b, a + c);
    LoadOfJoin(sep, [a, b]);
    ForcedTwoGlue(false, sep, [a, b], a, c);
    WithoutFirst(a, b);
    WithoutKeeps(sep, [b], c);
    assert Put(false, [b], a + c) == [b, a + c];
    WordsOfJoin(sep, [b, a + c]);
  }

  lemma WithoutFirst(a: Word, b: Word)
    requires a != b
    ensures Without([a, b], a) == [b]
  {
    FirstAndLast([a, b], a);
    assert [a, b] == [a] + [b];
  }

  // ---------------------------------------------------------------- delete and replace

  /** One round of wordDelete__ or wordReplace__: the word's place is filled with
      `filling`, a lone separator or the new word between two. */
  function SwapStep(first: bool, sep: char, list: string, word: Word, filling: string): string {
    var left := LeftOf(first, list, Between(sep, word));
    var right := RightOf(first, list, Between(sep, word));
    if left != right || left == "" || right == "" then left + filling + right else list
  }

  function DeleteRun(first: bool, sep: char, list: string, args: seq<Word>): string
    decreases |args|
  {
    if args == [] || args[0] == "" || list == "" then list
    else DeleteRun(first, sep, SwapStep(first, sep, list, args[0], [sep]), args[1..])
  }

  /** Words are taken in pairs, up to an empty first word or a lone last one. */
  function ReplaceRun(first: bool, sep: char, list: string, args: seq<Word>): string
    decreases |args|
  {
    if |args| < 2 || args[0] == "" then list
    else ReplaceRun(first, sep, SwapStep(first, sep, list, args[0], Between(sep, args[1])), args[2..])
  }

  /** The list without the word's first or last occurrence. */
  function Deleted(first: bool, words: seq<Word>, word: Word): (r: seq<Word>) {
    var k := Find(first, words, [word]);
    if k < 0 then words else words[..k] + words[k + 1..]
  }

  function DeletedAll(first: bool, words: seq<Word>, args: seq<Word>): seq<Word>
    decreases |args|
  {
    if args == [] then words else DeletedAll(first, Deleted(first, words, args[0]), args[1..])
  }

  /** The list with the word's first or last occurrence replaced. */
  function Replaced(first: bool, words: seq<Word>, word: Word, other: Word): (r: seq<Word>)
    ensures |r| == |words|
  {
    var k := Find(first, words, [word]);
    if k < 0 then words else words[..k] + [other] + words[k + 1..]
  }

  function ReplacedAll(first: bool, words: seq<Word>, args: seq<Word>): seq<Word>
    decreases |args|
  {
    if |args| < 2 || args[0] == "" then words
    else ReplacedAll(first, Replaced(first, words, args[0], args[1]), args[2..])
  }

  /** A present word is cut out at its first or last occurrence and the filling put in. */
  lemma SwapPresent(first: bool, sep: char, words: seq<Word>, word: Word, filling: string)
    requires AreWords(sep, words) && IsWord(sep, word) && word in words
    ensures var k := Find(first, words, [word]);
            && 0 <= k < |words| && words[k] == word
            && SwapStep(first, sep, Enc(sep, words, ""), word, filling) == Open(sep, words[..k]) + filling + Tail(sep, words[k + 1..], "")
  {
    IndexMeans(first, words, word);
    var k, list := Find(first, words, [word]), Enc(sep, words, "");
    CutPresent(first, sep, "", words, "", word, k);
    var pre, post := words[..k], words[k + 1..];
    assert "" + list == list && "" + Open(sep, pre) == Open(sep, pre);
    hide Find, Enc, Open, Tail, LeftOf, RightOf;
    SidesDiffer(sep, "", pre, post, "");
  }

  lemma SwapAbsent(first: bool, sep: char, words: seq<Word>, word: Word, filling: string)
    requires AreWords(sep, words) && IsWord(sep, word) && word !in words
    ensures SwapStep(first, sep, Enc(sep, words, ""), word, filling) == Enc(sep, words, "")
  {
    IndexMeans(first, words, word);
    Cuts(first, sep, "", words, "", word);
    assert "" + Enc(sep, words, "") == Enc(sep, words, "");
  }

  /** A round of deletion on the string is the deletion on the list, and leaves the
      separators whole even when the list runs empty. */
  lemma DeleteStepRefines(first: bool, sep: char, words: seq<Word>, word: Word)
    requires AreWords(sep, words) && IsWord(sep, word)
    ensures SwapStep(first, sep, Enc(sep, words, ""), word, [sep]) == Enc(sep, Deleted(first, words, word), "")
    ensures AreWords(sep, Deleted(first, words, word))
  {
    IndexMeans(first, words, word);
    if word in words {
      SwapPresent(first, sep, words, word, [sep]);
      var k := Find(first, words, [word]);
      Rejoined(sep, "", words[..k], words[k + 1..], "");
      Plain(Open(sep, words[..k]), [sep], Tail(sep, words[k + 1..], ""), Enc(sep, Deleted(first, words, word), ""));
    } else {
      SwapAbsent(first, sep, words, word, [sep]);
    }
  }

  lemma Plain(a: string, b: string, c: string, whole: string)
    requires "" + a + (b + c) == "" + whole
    ensures a + b + c == whole
  {
    assert "" + a == a && "" + whole == whole;
    Concat3(a, b, c);
  }

  lemma ReplaceStepRefines(first: bool, sep: char, words: seq<Word>, word: Word, other: Word)
    requires AreWords(sep, words) && IsWord(sep, word) && IsWord(sep, other)
    ensures SwapStep(first, sep, Enc(sep, words, ""), word, Between(sep, other)) == Enc(sep, Replaced(first, words, word, other), "")
    ensures AreWords(sep, Replaced(first, words, word, other))
  {
    IndexMeans(first, words, word);
    if word in words {
      SwapPresent(first, sep, words, word, Between(sep, other));
      var k := Find(first, words, [word]);
      var pre, post := words[..k], words[k + 1..];
      Rejoined(sep, "", pre, [other] + post, "");
      TailCons(sep, post, other);
      Concat3(pre, [other], post);
      hide Open, Enc, Tail, Find, SwapStep, Between;
      FillIn(sep, Open(sep, pre), other, Tail(sep, post, ""));
      Plain(Open(sep, pre), [sep], other + Enc(sep, post, ""), Enc(sep, pre + ([other] + post), ""));
    } else {
      SwapAbsent(first, sep, words, word, Between(sep, other));
    }
  }

  lemma TailCons(sep: char, words: seq<Word>, word: Word)
    ensures Tail(sep, [word] + words, "") == word + Enc(sep, words, "")
    ensures Enc(sep, words, "") == [sep] + Tail(sep, words, "")
  {
    EncCons(sep, words, word);
  }

  lemma FillIn(sep: char, left: string, other: Word, right: string)
    ensures left + Between(sep, other) + right == left + [sep] + (other + ([sep] + right))
  {
  }

  lemma {:induction false} DeleteRunRefines(first: bool, sep: char, words: seq<Word>, args: seq<Word>)
    requires AreWords(sep, words) && AreWords(sep, Given(args))
    ensures DeleteRun(first, sep, Enc(sep, words, ""), args) == Enc(sep, DeletedAll(first, words, Given(args)), "")
    ensures AreWords(sep, DeletedAll(first, words, Given(args)))
    decreases |args|
  {
    if args != [] && args[0] != "" {
      GivenTail(sep, args);
      DeleteStepRefines(first, sep, words, args[0]);
      DeleteRunRefines(first, sep, Deleted(first, words, args[0]), args[1..]);
    }
  }

  lemma {:induction false} NothingToDelete(first: bool, args: seq<Word>)
    ensures DeletedAll(first, [], args) == []
    decreases |args|
  {
    if args != [] {
      NothingToDelete(first, args[1..]);
    }
  }

  /** wordDelete_ on the variable's value: each word loses exactly its first (LR) or
      last (RL) occurrence, duplicates or not. */
  lemma DeleteRefines(first: bool, sep: char, words: seq<Word>, args: seq<Word>)
    requires AreWords(sep, words) && AreWords(sep, Given(args))
    ensures Strip(sep, DeleteRun(first, sep, Load(sep, Join(sep, words)), args)) == Join(sep, DeletedAll(first, words, Given(args)))
    ensures AreWords(sep, DeletedAll(first, words, Given(args)))
  {
    LoadOfJoin(sep, words);
    if words == [] {
      NothingToDelete(first, Given(args));
    } else {
      DeleteRunRefines(first, sep, words, args);
      StripLoaded(sep, DeletedAll(first, words, Given(args)));
    }
  }

  /** One word less, and every other word as often and in the same order. */
  lemma DeletedMeans(first: bool, words: seq<Word>, word: Word)
    ensures word !in words ==> Deleted(first, words, word) == words
    ensures word in words ==>
              exists k :: 0 <= k < |words| && words[k] == word
                       && Deleted(first, words, word) == words[..k] + words[k + 1..]
                       && word !in if first then words[..k] else words[k + 1..]
  {
    IndexMeans(first, words, word);
    if word in words {
      var k := Find(first, words, [word]);
      forall i | 0 <= i < |words| && words[i] == word
        ensures if first then k <= i else i <= k
      {
        FindMeans(first, words, [word], i);
      }
      assert words[k] == word && Deleted(first, words, word) == words[..k] + words[k + 1..];
    }
  }

  lemma {:induction false} ReplaceRunRefines(first: bool, sep: char, words: seq<Word>, args: seq<Word>)
    requires AreWords(sep, words) && AreWords(sep, args)
    ensures ReplaceRun(first, sep, Enc(sep, words, ""), args) == Enc(sep, ReplacedAll(first, words, args), "")
    ensures AreWords(sep, ReplacedAll(first, words, args))
    decreases |args|
  {
    if |args| >= 2 {
      assert IsWord(sep, args[0]) && IsWord(sep, args[1]);
      ReplaceStepRefines(first, sep, words, args[0], args[1]);
      ReplaceRunRefines(first, sep, Replaced(first, words, args[0], args[1]), args[2..]);
    }
  }

  lemma {:induction false} ReplacedLength(first: bool, words: seq<Word>, args: seq<Word>)
    ensures |ReplacedAll(first, words, args)| == |words|
    decreases |args|
  {
    if |args| >= 2 && args[0] != "" {
      ReplacedLength(first, Replaced(first, words, args[0], args[1]), args[2..]);
    }
  }

  /** On an empty variable the first pair's new word is put in, though its old word is
      not there. */
  lemma ReplaceInEmpty(first: bool, sep: char, args: seq<Word>)
    requires AreWords(sep, args) && |args| >= 2
    ensures Strip(sep, ReplaceRun(first, sep, Load(sep, ""), args)) == Join(sep, ReplacedAll(first, [args[1]], args[2..]))
  {
    assert IsWord(sep, args[0]) && IsWord(sep, args[1]);
    var list := SwapStep(first, sep, "", args[0], Between(sep, args[1]));
    assert list == Enc(sep, [args[1]], "") by {
      EncCons(sep, [], args[1]);
      assert [args[1]] + [] == [args[1]];
      assert [sep] + "" == [sep];
    }
    ReplaceRunRefines(first, sep, [args[1]], args[2..]);
    StripLoaded(sep, ReplacedAll(first, [args[1]], args[2..]));
  }

  /** wordReplace__ does what it promises, for either direction and with duplicates,
      exactly when the variable is not empty or no pair is given. */
  lemma ReplaceExactly(first: bool, sep: char, words: seq<Word>, args: seq<Word>)
    requires AreWords(sep, words) && AreWords(sep, args)
    ensures Strip(sep, ReplaceRun(first, sep, Load(sep, Join(sep, words)), args)) == Join(sep, ReplacedAll(first, words, args))
            <==> words != [] || |args| < 2
  {
    LoadOfJoin(sep, words);
    ReplacedLength(first, words, args);
    if words != [] {
      ReplaceRunRefines(first, sep, words, args);
      StripLoaded(sep, ReplacedAll(first, words, args));
    } else if |args| >= 2 {
      ReplaceInEmpty(first, sep, args);
      ReplacedLength(first, [args[1]], args[2..]);
      assert IsWord(sep, args[1]);
      ReplaceRunRefines(first, sep, [args[1]], args[2..]);
      SplitJoin(sep, ReplacedAll(first, [args[1]], args[2..]));
    }
  }

  // ---------------------------------------------------------------- the shell functions

  /** A list variable, which the word functions rewrite in place. */
  class ListVariable {
    var value: string

    /** wordAdd__ */
    method AddWords(force: bool, sep: char, args: seq<Word>)
      modifies this
      ensures value == Strip(sep, EditRun(false, force, sep, Load(sep, old(value)), args))
    {
      hide LeftOf, RightOf, Strip;
      var list := if value == "" then "" else [sep] + value + [sep];
      ghost var loaded := list;
      var i := 0;
      while i < |args| && args[i] != ""
        invariant 0 <= i <= |args|
        invariant EditRun(false, force, sep, loaded, args) == EditRun(false, force, sep, list, args[i..])
        decreases |args| - i
      {
        var left := LeftOf(true, list, Between(sep, args[i]));
        var right := RightOf(false, list, Between(sep, args[i]));
        if |list| == 0 {
          list := [sep] + args[i] + [sep];
        } else if |left| > 0 || |right| > 0 {
          if left == right {
            list := left + args[i] + [sep];
          } else if force {
            list := left + [sep] + right + args[i];
          }
        }
        assert args[i..][1..] == args[i + 1..];
        i := i + 1;
      }
      value := Strip(sep, list);
    }

    /** wordInsert__ */
    method InsertWords(force: bool, sep: char, args: seq<Word>)
      modifies this
      ensures value == Strip(sep, EditRun(true, force, sep, Load(sep, old(value)), args))
    {
      hide LeftOf, RightOf, Strip;
      var list := if value == "" then "" else [sep] + value + [sep];
      ghost var loaded := list;
      var i := 0;
      while i < |args| && args[i] != ""
        invariant 0 <= i <= |args|
        invariant EditRun(true, force, sep, loaded, args) == EditRun(true, force, sep, list, args[i..])
        decreases |args| - i
      {
        var left := LeftOf(true, list, Between(sep, args[i]));
        var right := RightOf(false, list, Between(sep, args[i]));
        if |list| == 0 {
          list := [sep] + args[i] + [sep];
        } else if |left| > 0 || |right| > 0 {
          if left == right {
            list := [sep] + args[i] + left;
          } else if force {
            list := args[i] + left + [sep] + right;
          }
        }
        assert args[i..][1..] == args[i + 1..];
        i := i + 1;
      }
      value := Strip(sep, list);
    }

    /** wordDelete__, left to right or right to left. */
    method DeleteWords(first: bool, sep: char, args: seq<Word>)
      modifies this
      ensures value == Strip(sep, DeleteRun(first, sep, Load(sep, old(value)), args))
    {
      hide LeftOf, RightOf, Strip;
      var list := if value == "" then "" else [sep] + value + [sep];
      ghost var loaded := list;
      var i := 0;
      while i < |args| && args[i] != "" && |list| > 0
        invariant 0 <= i <= |args|
        invariant DeleteRun(first, sep, loaded, args) == DeleteRun(first, sep, list, args[i..])
        decreases |args| - i
      {
        var left := LeftOf(first, list, Between(sep, args[i]));
        var right := RightOf(first, list, Between(sep, args[i]));
        if left != right || |left| == 0 || |right| == 0 {
          list := left + [sep] + right;
        }
        assert args[i..][1..] == args[i + 1..];
        i := i + 1;
      }
      value := Strip(sep, list);
    }

    /** wordReplace__, left to right or right to left. */
    method ReplaceWords(first: bool, sep: char, args: seq<Word>)
      modifies this
      ensures value == Strip(sep, ReplaceRun(first, sep, Load(sep, old(value)), args))
    {
      hide LeftOf, RightOf, Strip;
      var list := if value == "" then "" else [sep] + value + [sep];
      ghost var loaded := list;
      var i := 0;
      while |args| - i > 1 && args[i] != ""
        invariant 0 <= i <= |args|
        invariant ReplaceRun(first, sep, loaded, args) == ReplaceRun(first, sep, list, args[i..])
        decreases |args| - i
      {
        var left := LeftOf(first, list, Between(sep, args[i]));
        var right := RightOf(first, list, Between(sep, args[i]));
        if left != right || |left| == 0 || |right| == 0 {
          list := left + ([sep] + args[i + 1] + [sep]) + right;
        }
        assert args[i..][2..] == args[i + 2..];
        i := i + 2;
      }
      value := Strip(sep, list);
    }

    /** wordAdd_ */
    method WordAdd(sep: char, args: seq<Word>, ghost words: seq<Word>)
      requires AreWords(sep, words) && value == Join(sep, words) && AreWords(sep, Given(args))
      modifies this
      ensures value == Join(sep, words + Missing(Elements(words), Given(args)))
    {
      AddWords(false, sep, args);
      AddRefines(false, sep, words, args);
      AddsExactlyTheMissing(false, words, Given(args));
    }

    /** wordInsert_ */
    method WordInsert(sep: char, args: seq<Word>, ghost words: seq<Word>)
      requires AreWords(sep, words) && value == Join(sep, words) && AreWords(sep, Given(args))
      modifies this
      ensures value == Join(sep, Reverse(Missing(Elements(words), Given(args))) + words)
    {
      InsertWords(false, sep, args);
      AddRefines(true, sep, words, args);
      AddsExactlyTheMissing(true, words, Given(args));
    }

    /** forceWordAdd_ with one word. */
    method ForceWordAdd(sep: char, word: Word, ghost words: seq<Word>)
      requires AreWords(sep, words) && Unique(words) && IsWord(sep, word) && value == Join(sep, words)
      modifies this
      ensures value == Join(sep, Without(words, word) + [word])
    {
      AddWords(true, sep, [word]);
      LoadOfJoin(sep, words);
      ForcedOneWord(false, sep, words, word);
    }

    /** forceWordInsert_ with one word. */
    method ForceWordInsert(sep: char, word: Word, ghost words: seq<Word>)
      requires AreWords(sep, words) && Unique(words) && IsWord(sep, word) && value == Join(sep, words)
      modifies this
      ensures value == Join(sep, [word] + Without(words, word))
    {
      InsertWords(true, sep, [word]);
      LoadOfJoin(sep, words);
      ForcedOneWord(true, sep, words, word);
    }

    /** wordDeleteLR_ and wordDelete_ (`first`), wordDeleteRL_ (not `first`). */
    method WordDelete(first: bool, sep: char, args: seq<Word>, ghost words: seq<Word>)
      requires AreWords(sep, words) && value == Join(sep, words) && AreWords(sep, Given(args))
      modifies this
      ensures value == Join(sep, DeletedAll(first, words, Given(args)))
    {
      DeleteWords(first, sep, args);
      DeleteRefines(first, sep, words, args);
    }

    /** wordReplaceLR_ (`first`) and wordReplaceRL_ (not `first`). */
    method WordReplace(first: bool, sep: char, args: seq<Word>, ghost words: seq<Word>)
      requires AreWords(sep, words) && AreWords(sep, args) && value == Join(sep, words)
      modifies this
      ensures value == Join(sep, ReplacedAll(first, words, args)) <==> words != [] || |args| < 2
    {
      ReplaceWords(first, sep, args);
      ReplaceExactly(first, sep, words, args);
    }
  }
}
