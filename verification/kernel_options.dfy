/** Post-install kernel options: the parser of `kopts_post` and the printer of the Puppet provider. */
module KernelOptions {
  import opened Strings
  import opened Wrappers

  type Pair = (string, string)

  /** ValueError: an option without `=` cannot be unpacked into key and value. */
  datatype ParseError = ValueError

  /** The place of the first `=`. */
  function EqualsAt(arg: string): Option<nat> {
    if arg == "" then None
    else if arg[0] == '=' then Some(0)
    else
      match EqualsAt(arg[1..])
      case None => None
      case Some(i) => Some(i + 1)
  }

  lemma {:induction false} EqualsAtFirst(arg: string)
    ensures EqualsAt(arg).None? ==> '=' !in arg
    ensures EqualsAt(arg).Some? ==>
      var i := EqualsAt(arg).value;
      i < |arg| && arg[i] == '=' && '=' !in arg[..i]
  {
    if arg != "" && arg[0] != '=' {
      EqualsAtFirst(arg[1..]);
      if EqualsAt(arg).Some? {
        assert arg[..EqualsAt(arg).value] == [arg[0]] + arg[1..][..EqualsAt(arg).value - 1];
      }
    }
  }

  /** `arg.split("=", 1)`, both parts stripped. */
  function ParseWord(word: string): Result<Pair, ParseError> {
    var arg := Strip(word);
    EqualsAtFirst(arg);
    match EqualsAt(arg)
    case None => Err(ValueError)
    case Some(i) => Ok((Strip(arg[..i]), Strip(arg[i + 1..])))
  }

  function ParseWords(words: seq<string>): Result<seq<Pair>, ParseError> {
    if words == [] then Ok([])
    else
      match ParseWords(words[..|words| - 1])
      case Err(e) => Err(e)
      case Ok(before) =>
        match ParseWord(words[|words| - 1])
        case Err(e) => Err(e)
        case Ok(pair) => Ok(before + [pair])
  }

  /** `dict(pairs)`: a later pair replaces an earlier one with its key. */
  function ToMap(pairs: seq<Pair>): map<string, string> {
    if pairs == [] then map[]
    else ToMap(pairs[..|pairs| - 1])[pairs[|pairs| - 1].0 := pairs[|pairs| - 1].1]
  }

  /** How the plugin reads an os-profile's `kopts_post`. */
  function Parse(text: string): Result<map<string, string>, ParseError> {
    match ParseWords(NonEmpty(Split(text, ' ')))
    case Err(e) => Err(e)
    case Ok(pairs) => Ok(ToMap(pairs))
  }

  // ---------- the provider ----------

  /** `~` marks an option without a value. */
  function PrintPair(p: Pair): string {
    if p.1 == "~" then p.0 else p.0 + "=" + p.1
  }

  function PrintWords(pairs: seq<Pair>): (words: seq<string>)
    ensures |words| == |pairs| && forall i | 0 <= i < |pairs| :: words[i] == PrintPair(pairs[i])
  {
    seq(|pairs|, i requires 0 <= i < |pairs| => PrintPair(pairs[i]))
  }

  function Print(pairs: seq<Pair>): string {
    Join(PrintWords(pairs), " ")
  }

  /** The cobblerprofile provider; `commands` are the cobbler command lines run so far. */
  class ProfileProvider {
    const name: string
    var commands: seq<seq<string>>
    var ksOptsPost: seq<Pair>

    constructor (name: string)
      ensures this.name == name && commands == [] && ksOptsPost == []
    {
      this.name := name;
      commands, ksOptsPost := [], [];
    }

    /** `ks_opts_post=`, over the pairs in the order of the Ruby hash. */
    method SetKsOptsPost(value: seq<Pair>)
      modifies this
      ensures commands == old(commands) + [["profile", "edit", "--name=" + name, "--kopts-post=" + Print(value)]]
      ensures ksOptsPost == value
    {
      var words: seq<string> := [];
      for i := 0 to |value|
        invariant words == PrintWords(value[..i])
        invariant unchanged(this)
      {
        var (key, val) := value[i];
        if val == "~" {
          words := words + [key];
        } else {
          words := words + [key + "=" + val];
        }
      }
      assert value[..|value|] == value;
      commands := commands + [["profile", "edit", "--name=" + name, "--kopts-post=" + Join(words, " ")]];
      ksOptsPost := value;
    }
  }

  // ---------- the round trip ----------

  predicate CleanKey(key: string) {
    Trimmed(key) && ' ' !in key && '=' !in key
  }

  predicate CleanValue(val: string) {
    Trimmed(val) && ' ' !in val
  }

  predicate Clean(pairs: seq<Pair>) {
    forall p | p in pairs :: CleanKey(p.0) && CleanValue(p.1)
  }

  lemma {:induction false} EqualsAtKey(key: string, rest: string)
    requires '=' !in key
    ensures EqualsAt(key + "=" + rest) == Some(|key|)
  {
    if key == "" {
      assert key + "=" + rest == "=" + rest;
    } else {
      assert (key + "=" + rest)[1..] == key[1..] + "=" + rest;
      EqualsAtKey(key[1..], rest);
    }
  }

  lemma PairReadsBack(p: Pair)
    requires CleanKey(p.0) && CleanValue(p.1)
    ensures p.1 != "~" ==> ParseWord(PrintPair(p)) == Ok(p)
    ensures p.1 == "~" ==> ParseWord(PrintPair(p)) == Err(ValueError)
    ensures ' ' !in PrintPair(p) && (p.0 != "" || p.1 != "~" ==> PrintPair(p) != "")
  {
    var (key, val) := p;
    if val == "~" {
      StripTrimmed(key);
      EqualsAtFirst(key);
    } else {
      var arg := key + "=" + val;
      assert arg[0] == if key == "" then '=' else key[0];
      assert arg[|arg| - 1] == if val == "" then '=' else val[|val| - 1];
      StripTrimmed(arg);
      EqualsAtKey(key, val);
      assert arg[..|key|] == key && arg[|key| + 1..] == val;
      StripTrimmed(key);
      StripTrimmed(val);
    }
  }

  lemma {:induction false} WordsReadBack(pairs: seq<Pair>)
    requires Clean(pairs)
    ensures (forall p | p in pairs :: p.1 != "~") ==> ParseWords(PrintWords(pairs)) == Ok(pairs)
    ensures (exists p | p in pairs :: p.1 == "~") ==> ParseWords(PrintWords(pairs)) == Err(ValueError)
  {
    if pairs != [] {
      var front, last := pairs[..|pairs| - 1], pairs[|pairs| - 1];
      assert pairs == front + [last] && last in pairs;
      WordsReadBack(front);
      PairReadsBack(last);
      assert PrintWords(pairs) == PrintWords(front) + [PrintPair(last)];
      assert PrintWords(pairs)[..|pairs| - 1] == PrintWords(front);
    }
  }

  /** The pairs that are printed as something. */
  function Shown(pairs: seq<Pair>): (kept: seq<Pair>)
    ensures forall p :: p in kept <==> p in pairs && p != ("", "~")
  {
    if pairs == [] then []
    else
      var before, last := Shown(pairs[..|pairs| - 1]), pairs[|pairs| - 1];
      if last == ("", "~") then before else before + [last]
  }

  lemma PairShown(p: Pair)
    ensures PrintPair(p) == "" <==> p == ("", "~")
  {
    assert p.1 != "~" ==> '=' in PrintPair(p);
  }

  lemma {:induction false} ShownWords(pairs: seq<Pair>)
    ensures NonEmpty(PrintWords(pairs)) == PrintWords(Shown(pairs))
  {
    if pairs != [] {
      var front, last := pairs[..|pairs| - 1], pairs[|pairs| - 1];
      ShownWords(front);
      PairShown(last);
      assert PrintWords(pairs) == PrintWords(front) + [PrintPair(last)];
      NonEmptyAppend(PrintWords(front), [PrintPair(last)]);
      assert [PrintPair(last)][1..] == [];
      assert PrintWords(Shown(front) + [last]) == PrintWords(Shown(front)) + [PrintPair(last)];
      assert PrintWords(Shown(front)) + [] == PrintWords(Shown(front));
    }
  }

  lemma PrintedWords(pairs: seq<Pair>)
    requires Clean(pairs)
    ensures NonEmpty(Split(Print(pairs), ' ')) == PrintWords(Shown(pairs))
  {
    var words := PrintWords(pairs);
    forall w | w in words
      ensures ' ' !in w
    {
      var i :| 0 <= i < |words| && words[i] == w;
      assert pairs[i] in pairs;
      PairReadsBack(pairs[i]);
    }
    ShownWords(pairs);
    if pairs != [] {
      SplitJoin(words, ' ');
    } else {
      assert Split("", ' ') == [""] && NonEmpty([""]) == [];
    }
  }

  /**
   * What parsing gives of printed options: those that are printed as something, if none of them is `~`; a `~`
   * with a key makes the parser raise ValueError. Values may contain `=`.
   */
  lemma RoundTrip(pairs: seq<Pair>)
    requires Clean(pairs)
    ensures Parse(Print(pairs)) ==
      if forall p | p in pairs :: p.1 == "~" ==> p.0 == "" then Ok(ToMap(Shown(pairs))) else Err(ValueError)
  {
    PrintedWords(pairs);
    WordsReadBack(Shown(pairs));
  }

  lemma StripKeepsOut(s: string, c: char)
    requires c !in s
    ensures c !in Strip(s)
  {
    var before, after := StripKeeps(s);
  }

  lemma ParsedWordClean(word: string)
    requires ' ' !in word && ParseWord(word).Ok?
    ensures CleanKey(ParseWord(word).value.0) && CleanValue(ParseWord(word).value.1)
  {
    var arg := Strip(word);
    StripKeepsOut(word, ' ');
    EqualsAtFirst(arg);
    var i := EqualsAt(arg).value;
    StripKeepsOut(arg[..i], ' ');
    StripKeepsOut(arg[..i], '=');
    StripKeepsOut(arg[i + 1..], ' ');
    StripTrims(arg[..i]);
    StripTrims(arg[i + 1..]);
  }

  lemma {:induction false} ParsedWordsClean(words: seq<string>)
    requires (forall w | w in words :: ' ' !in w) && ParseWords(words).Ok?
    ensures Clean(ParseWords(words).value)
  {
    if words != [] {
      ParsedWordsClean(words[..|words| - 1]);
      ParsedWordClean(words[|words| - 1]);
    }
  }

  lemma {:induction false} ToMapFrom(pairs: seq<Pair>)
    ensures forall k | k in ToMap(pairs) :: (k, ToMap(pairs)[k]) in pairs
  {
    if pairs != [] {
      ToMapFrom(pairs[..|pairs| - 1]);
    }
  }

  /** The last pair with this key is at `i`. */
  ghost predicate LastWith(pairs: seq<Pair>, key: string, i: nat) {
    i < |pairs| && pairs[i].0 == key && forall j | i < j < |pairs| :: pairs[j].0 != key
  }

  /** `dict` keeps every key, with the value of its last pair. */
  lemma {:induction false} LastWins(pairs: seq<Pair>, key: string)
    ensures key in ToMap(pairs) <==> exists p | p in pairs :: p.0 == key
    ensures forall i: nat | LastWith(pairs, key, i) :: key in ToMap(pairs) && ToMap(pairs)[key] == pairs[i].1
  {
    if pairs != [] {
      var front, last := pairs[..|pairs| - 1], pairs[|pairs| - 1];
      LastWins(front, key);
      assert forall p :: p in pairs <==> p in front || p == last;
      forall i: nat | LastWith(pairs, key, i)
        ensures key in ToMap(pairs) && ToMap(pairs)[key] == pairs[i].1
      {
        if i < |front| {
          assert LastWith(front, key, i);
        }
      }
    }
  }

  /** The pairs of a map in some order. */
  ghost predicate Lists(pairs: seq<Pair>, m: map<string, string>) {
    && (forall p | p in pairs :: p.0 in m && m[p.0] == p.1)
    && (forall k | k in m :: (k, m[k]) in pairs)
  }

  lemma {:induction false} ToMapOf(pairs: seq<Pair>, m: map<string, string>)
    requires Lists(pairs, m)
    ensures ToMap(pairs) == m
  {
    ListedValues(pairs, m);
    assert ToMap(pairs).Keys == m.Keys;
  }

  lemma {:induction false} ListedValues(pairs: seq<Pair>, m: map<string, string>)
    requires forall p | p in pairs :: p.0 in m && m[p.0] == p.1
    ensures forall k :: k in ToMap(pairs) <==> exists p | p in pairs :: p.0 == k
    ensures forall k | k in ToMap(pairs) :: k in m && ToMap(pairs)[k] == m[k]
  {
    if pairs != [] {
      var front, last := pairs[..|pairs| - 1], pairs[|pairs| - 1];
      ListedValues(front, m);
      assert forall p :: p in pairs <==> p in front || p == last;
    }
  }

  lemma {:induction false} ShownAll(pairs: seq<Pair>)
    requires forall p | p in pairs :: p.1 != "~"
    ensures Shown(pairs) == pairs
  {
    if pairs != [] {
      var front, last := pairs[..|pairs| - 1], pairs[|pairs| - 1];
      assert pairs == front + [last] && last in pairs;
      ShownAll(front);
    }
  }

  /** Whatever the parser accepts survives printing, in any order, and parsing again if and only if it holds no `~`. */
  lemma ParsedRoundTrip(text: string, pairs: seq<Pair>)
    requires Parse(text).Ok? && Lists(pairs, Parse(text).value)
    ensures Parse(Print(pairs)) == Parse(text) <==> forall k | k in Parse(text).value :: Parse(text).value[k] != "~"
  {
    var m := Parse(text).value;
    var parsed := ParseWords(NonEmpty(Split(text, ' '))).value;
    ParsedWordsClean(NonEmpty(Split(text, ' ')));
    ToMapFrom(parsed);
    forall p | p in pairs
      ensures CleanKey(p.0) && CleanValue(p.1)
    {
      assert (p.0, m[p.0]) in parsed;
    }
    RoundTrip(pairs);
    if forall k | k in m :: m[k] != "~" {
      ShownAll(pairs);
      ToMapOf(pairs, m);
    } else {
      var k :| k in m && m[k] == "~";
      assert (k, m[k]) in pairs;
      TildeIsLost(pairs, m, k);
    }
  }

  /** A `~` is not read back: without a key it is not even printed. */
  lemma TildeIsLost(pairs: seq<Pair>, m: map<string, string>, k: string)
    requires Clean(pairs) && Lists(pairs, m) && k in m && m[k] == "~"
    ensures Parse(Print(pairs)) != Ok(m)
  {
    RoundTrip(pairs);
    assert (k, m[k]) in pairs;
    if k == "" {
      ListedValues(Shown(pairs), m);
      assert forall p | p in Shown(pairs) :: p.0 != "";
    }
  }
}
