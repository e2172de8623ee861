/** Parsing "key=value,key,..." arguments. */
module KeyValueParser {
  import opened Bytes

  datatype OptionArgument = ArgumentNone | ArgumentRequired | ArgumentOptional
  datatype OptionType = OptionNone | OptionInteger | OptionString

  datatype Descriptor = Descriptor(kind: OptionType, argument: OptionArgument)

  datatype Value = ValueNone | ValueInteger(i: int) | ValueString(s: string)

  /** What parse() returns: the values so far, even when the rest was not valid. */
  datatype Options = Options(values: map<string, Value>, valid: bool)

  /** The known options, and strtoul() with the check that nothing follows the number. */
  datatype Parser = Parser(options: map<string, Descriptor>, toInteger: string -> Option<int>)

  // --- What the parser does with one pair.

  /** parseValue(), for an option that is no array. */
  function ParseValue(p: Parser, d: Descriptor, value: string): Option<Value> {
    match d.kind
    case OptionNone => Some(ValueNone)
    case OptionInteger =>
      (match p.toInteger(value)
       case None => None
       case Some(i) => Some(ValueInteger(i)))
    case OptionString => Some(ValueString(value))
  }

  /** The value to store for a key, if the key is known, its argument rule is obeyed and the value parses. */
  function Accept(p: Parser, key: string, value: string): Option<Value> {
    if key !in p.options then None
    else if value == "" && p.options[key].argument.ArgumentRequired? then None
    else if value != "" && p.options[key].argument.ArgumentNone? then None
    else ParseValue(p, p.options[key], value)
  }

  /** The position of the first c in s, or the length of s. */
  function Find(s: string, c: char): (i: nat)
    ensures i <= |s|
    ensures c !in s[..i]
    ensures i < |s| ==> s[i] == c
  {
    if s == "" || s[0] == c then 0 else 1 + Find(s[1..], c)
  }

  /** A pair without '=' is a key with an empty value. */
  function KeyOf(pair: string): string {
    pair[..Find(pair, '=')]
  }

  function ValueOf(pair: string): string {
    var i := Find(pair, '=');
    if i < |pair| then pair[i + 1..] else ""
  }

  // --- What it does with all of them.

  /** The pieces of s between commas. */
  function Split(s: string): seq<string>
    decreases |s|
  {
    var i := Find(s, ',');
    [s[..i]] + if i < |s| then Split(s[i + 1..]) else []
  }

  function ParsePairs(p: Parser, values: map<string, Value>, pairs: seq<string>): Options
    decreases |pairs|
  {
    if pairs == [] then Options(values, true)
    else if KeyOf(pairs[0]) == "" then ParsePairs(p, values, pairs[1..])
    else
      match Accept(p, KeyOf(pairs[0]), ValueOf(pairs[0]))
      case None => Options(values, false)
      case Some(v) => ParsePairs(p, values[KeyOf(pairs[0]) := v], pairs[1..])
  }

  function Parsed(p: Parser, s: string): Options {
    ParsePairs(p, map[], Split(s))
  }

  /** strchrnul() and memchr(): the first occurrence from a position, or the end. */
  method Scan(s: string, from: nat, end: nat, c: char) returns (i: nat)
    requires from <= end <= |s|
    ensures from <= i <= end
    ensures i - from == Find(s[from..end], c)
  {
    i := from;
    while i < end && s[i] != c
      invariant from <= i <= end
      invariant Find(s[from..end], c) == i - from + Find(s[i..end], c)
    {
      assert s[i..end][0] == s[i] && s[i..end][1..] == s[i + 1..end];
      i := i + 1;
    }
    assert i < end ==> s[i..end][0] == c;
    assert Find(s[i..end], c) == 0;
  }

  lemma SplitAt(s: string, i: nat)
    requires i == Find(s, ',')
    ensures Split(s) == [s[..i]] + if i < |s| then Split(s[i + 1..]) else []
  {
    hide Find;
  }

  /** One pair, then the rest. */
  lemma PairsStep(p: Parser, values: map<string, Value>, t: string, rest: seq<string>)
    ensures
      ParsePairs(p, values, [t] + rest)
      == (if KeyOf(t) == "" then ParsePairs(p, values, rest)
          else
            match Accept(p, KeyOf(t), ValueOf(t))
            case None => Options(values, false)
            case Some(v) => ParsePairs(p, values[KeyOf(t) := v], rest))
    ensures ParsePairs(p, values, []) == Options(values, true)
  {
    assert ([t] + rest)[1..] == rest;
  }

  /** An empty string is one empty piece, which is skipped. */
  lemma NothingToParse(p: Parser, values: map<string, Value>)
    ensures Split("") == [""] && ParsePairs(p, values, Split("")) == Options(values, true)
  {
    PairsStep(p, values, "", []);
    assert [""] + [] == [""];
    assert Find("", ',') == 0 == Find("", '=');
  }

  /** What is left to do with the string from a position. */
  function Continue(p: Parser, values: map<string, Value>, s: string, from: nat): Options {
    if from >= |s| then Options(values, true) else ParsePairs(p, values, Split(s[from..]))
  }

  lemma ContinueStep(p: Parser, values: map<string, Value>, s: string, pair: nat, comma: nat)
    requires pair < |s| && pair <= comma <= |s|
    requires comma - pair == Find(s[pair..|s|], ',')
    ensures
      var t := s[pair..comma];
      var next := if comma < |s| then comma + 1 else comma;
      Continue(p, values, s, pair)
      == (if KeyOf(t) == "" then Continue(p, values, s, next)
          else
            match Accept(p, KeyOf(t), ValueOf(t))
            case None => Options(values, false)
            case Some(v) => Continue(p, values[KeyOf(t) := v], s, next))
  {
    assert s[pair..|s|] == s[pair..];
    assert s[pair..][..comma - pair] == s[pair..comma];
    SplitAt(s[pair..], comma - pair);
    var t := s[pair..comma];
    var rest := if comma < |s| then Split(s[comma + 1..]) else [];
    if comma < |s| {
      assert s[pair..][comma - pair + 1..] == s[comma + 1..];
    }
    assert Split(s[pair..]) == [t] + rest;
    PairsStep(p, values, t, rest);
    if comma + 1 >= |s| {
      var v := Accept(p, KeyOf(t), ValueOf(t));
      var stored := if v.Some? then values[KeyOf(t) := v.value] else values;
      assert comma < |s| ==> s[comma + 1..] == "";
      NothingToParse(p, values);
      NothingToParse(p, stored);
      PairsStep(p, values, "", []);
      PairsStep(p, stored, "", []);
    }
    hide Split, Accept, Find, ParsePairs, KeyOf, ValueOf;
  }

  /** parse(): arguments is the position in the string s, which its terminating null ends. */
  method Parse(p: Parser, s: string) returns (options: Options)
    ensures options == Parsed(p, s)
  {
    var values: map<string, Value> := map[];
    var arguments := 0;
    assert Parsed(p, s) == Continue(p, values, s, 0) by {
      assert s[0..] == s;
      NothingToParse(p, values);
    }
    hide Continue, Parsed, ParsePairs, Split;
    while arguments < |s|
      invariant arguments <= |s|
      invariant Parsed(p, s) == Continue(p, values, s, arguments)
    {
      var pair := arguments;
      var comma := Scan(s, arguments, |s|, ',');
      ContinueStep(p, values, s, pair, comma);
      var len := comma - pair;
      arguments := if comma < |s| then comma + 1 else comma;
      if len == 0 {
        continue;
      }
      var key, value := "", "";
      var separator := Scan(s, pair, comma, '=');
      if separator == comma {
        key := s[pair..comma];
      } else {
        key := s[pair..separator];
        value := s[separator + 1..comma];
      }
      PairParts(s, pair, separator, comma);
      hide KeyOf, ValueOf;
      if key == "" {
        continue;
      }
      if key !in p.options {
        return Options(values, false);
      }
      if value == "" && p.options[key].argument.ArgumentRequired? {
        return Options(values, false);
      } else if value != "" && p.options[key].argument.ArgumentNone? {
        return Options(values, false);
      }
      var v := ParseValue(p, p.options[key], value);
      if v.None? {
        return Options(values, false);
      }
      values := values[key := v.value];
    }
    options := Options(values, true);
    DoneAtEnd(p, values, s);
  }

  lemma DoneAtEnd(p: Parser, values: map<string, Value>, s: string)
    ensures Continue(p, values, s, |s|) == Options(values, true)
  {
  }

  lemma PairParts(s: string, pair: nat, separator: nat, comma: nat)
    requires pair <= separator <= comma <= |s|
    requires separator - pair == Find(s[pair..comma], '=')
    ensures KeyOf(s[pair..comma]) == s[pair..separator]
    ensures ValueOf(s[pair..comma]) == if separator == comma then "" else s[separator + 1..comma]
  {
    assert s[pair..comma][..separator - pair] == s[pair..separator];
    if separator < comma {
      assert s[pair..comma][separator - pair + 1..] == s[separator + 1..comma];
    }
  }

  // --- Parsing a,b.

  lemma FindAppend(a: string, b: string, c: char)
    ensures Find(a, c) < |a| ==> Find(a + b, c) == Find(a, c)
    ensures Find(a, c) == |a| ==> Find(a + b, c) == |a| + Find(b, c)
    decreases |a|
  {
    if a == "" {
      assert a + b == b;
    } else {
      assert (a + b)[1..] == a[1..] + b;
      FindAppend(a[1..], b, c);
    }
  }

  lemma SplitUnfold(s: string, first: string, rest: string)
    requires rest != "" && rest[0] == ',' && ',' !in first && s == first + rest
    ensures Split(s) == [first] + Split(rest[1..])
  {
    NotFound(first, ',');
    FindAppend(first, rest, ',');
    SplitAt(s, |first|);
    assert s[..|first|] == first && s[|first| + 1..] == rest[1..];
  }

  /** The first piece of a is the first piece of anything a begins. */
  lemma SplitStep(a: string, tail: string)
    requires tail != "" && tail[0] == ','
    ensures
      var i := Find(a, ',');
      Split(a + tail) == [a[..i]] + if i < |a| then Split(a[i + 1..] + tail) else Split(tail[1..])
  {
    var i := Find(a, ',');
    var rest := a[i..] + tail;
    assert a + tail == a[..i] + rest;
    assert i < |a| ==> rest[1..] == a[i + 1..] + tail;
    assert i == |a| ==> rest == tail;
    SplitUnfold(a + tail, a[..i], rest);
    hide Split, Find;
  }

  lemma {:induction false} SplitAppend(a: string, tail: string)
    requires tail != "" && tail[0] == ','
    ensures Split(a + tail) == Split(a) + Split(tail[1..])
    decreases |a|
  {
    hide Split, Find;
    var i := Find(a, ',');
    SplitAt(a, i);
    SplitStep(a, tail);
    if i < |a| {
      var rest := a[i + 1..];
      SplitAppend(rest, tail);
      Glue(Split(a + tail), Split(a), [a[..i]], Split(rest), Split(tail[1..]));
    } else {
      Glue(Split(a + tail), Split(a), [a[..i]], [], Split(tail[1..]));
    }
  }

  lemma Glue(whole: seq<string>, part: seq<string>, first: seq<string>, middle: seq<string>, last: seq<string>)
    requires part == first + middle
    requires whole == first + (middle + last) || (middle == [] && whole == first + last)
    ensures whole == part + last
  {
  }

  lemma {:induction false} PairsAppend(p: Parser, values: map<string, Value>, xs: seq<string>, ys: seq<string>)
    ensures
      var first := ParsePairs(p, values, xs);
      ParsePairs(p, values, xs + ys) == if first.valid then ParsePairs(p, first.values, ys) else first
    decreases |xs|
  {
    if xs == [] {
      assert xs + ys == ys;
    } else {
      assert (xs + ys)[1..] == xs[1..] + ys && (xs + ys)[0] == xs[0];
      if KeyOf(xs[0]) == "" {
        PairsAppend(p, values, xs[1..], ys);
      } else {
        match Accept(p, KeyOf(xs[0]), ValueOf(xs[0]))
        case None =>
        case Some(v) => PairsAppend(p, values[KeyOf(xs[0]) := v], xs[1..], ys);
      }
    }
  }

  /** Earlier values only matter where no pair overrides them. */
  lemma {:induction false} PairsOverride(p: Parser, values: map<string, Value>, xs: seq<string>)
    ensures
      var alone := ParsePairs(p, map[], xs);
      ParsePairs(p, values, xs) == Options(values + alone.values, alone.valid)
    decreases |xs|
  {
    if xs == [] {
      assert values + map[] == values;
    } else if KeyOf(xs[0]) == "" {
      PairsOverride(p, values, xs[1..]);
    } else {
      match Accept(p, KeyOf(xs[0]), ValueOf(xs[0]))
      case None =>
        assert values + map[] == values;
      case Some(v) =>
        var k := KeyOf(xs[0]);
        PairsOverride(p, values[k := v], xs[1..]);
        PairsOverride(p, map[k := v], xs[1..]);
        var alone := ParsePairs(p, map[], xs[1..]).values;
        assert values[k := v] + alone == values + (map[k := v] + alone);
    }
  }

  /** Parsing a,b is valid iff parsing a and parsing b are, and yields what a yields, overridden by b. */
  lemma ParseConcat(p: Parser, a: string, b: string)
    ensures
      var (ra, rb, rab) := (Parsed(p, a), Parsed(p, b), Parsed(p, a + "," + b));
      && (rab.valid <==> ra.valid && rb.valid)
      && rab.values == (if ra.valid then ra.values + rb.values else ra.values)
  {
    Comma(a, b);
    SplitAppend(a, "," + b);
    PairsAppend(p, map[], Split(a), Split(b));
    PairsOverride(p, Parsed(p, a).values, Split(b));
    hide Split, ParsePairs;
  }

  lemma Comma(a: string, b: string)
    ensures a + "," + b == a + ("," + b) && ("," + b)[1..] == b
  {
  }

  // --- Parsing what was joined.

  /** A key with its value; an empty value may be written with or without the '='. */
  datatype Pair = Pair(key: string, value: string, bare: bool)

  predicate Writable(x: Pair) {
    x.key != "" && ',' !in x.key && '=' !in x.key && ',' !in x.value && (x.bare ==> x.value == "")
  }

  function Text(x: Pair): string {
    if x.bare then x.key else x.key + "=" + x.value
  }

  function Join(xs: seq<Pair>): string
    decreases |xs|
  {
    if xs == [] then "" else if |xs| == 1 then Text(xs[0]) else Text(xs[0]) + "," + Join(xs[1..])
  }

  /** The last value given for each key. */
  function LastWins(p: Parser, xs: seq<Pair>): map<string, Value>
    requires forall x <- xs :: Accept(p, x.key, x.value).Some?
    decreases |xs|
  {
    if xs == [] then map[]
    else
      var n := |xs| - 1;
      LastWins(p, xs[..n])[xs[n].key := Accept(p, xs[n].key, xs[n].value).value]
  }

  lemma NotFound(s: string, c: char)
    requires c !in s
    ensures Find(s, c) == |s|
  {
  }

  lemma TextParts(x: Pair)
    requires Writable(x)
    ensures KeyOf(Text(x)) == x.key && ValueOf(Text(x)) == x.value && Split(Text(x)) == [Text(x)]
  {
    NotFound(x.key, '=');
    FindAppend(x.key, "=" + x.value, '=');
    assert x.key + "=" + x.value == x.key + ("=" + x.value);
    assert ',' !in Text(x);
    NotFound(Text(x), ',');
    assert Text(x)[..|Text(x)|] == Text(x) && [Text(x)] + [] == [Text(x)];
  }

  lemma ParseOne(p: Parser, x: Pair)
    requires Writable(x)
    ensures
      Parsed(p, Text(x))
      == match Accept(p, x.key, x.value)
         case None => Options(map[], false)
         case Some(v) => Options(map[x.key := v], true)
  {
    TextParts(x);
    PairsStep(p, map[], Text(x), []);
    var v := Accept(p, x.key, x.value);
    PairsStep(p, if v.Some? then map[x.key := v.value] else map[], Text(x), []);
    assert [Text(x)] + [] == [Text(x)];
    hide KeyOf, ValueOf, Split, Text, Accept, ParsePairs;
  }

  lemma {:induction false} LastWinsTail(p: Parser, xs: seq<Pair>)
    requires xs != [] && forall x <- xs :: Accept(p, x.key, x.value).Some?
    ensures LastWins(p, xs) == map[xs[0].key := Accept(p, xs[0].key, xs[0].value).value] + LastWins(p, xs[1..])
    decreases |xs|
  {
    hide Accept, LastWins;
    var n := |xs| - 1;
    LastWinsSnoc(p, xs);
    if n == 0 {
      LastWinsNone(p, xs[..0]);
      LastWinsNone(p, xs[1..]);
    } else {
      LastWinsTail(p, xs[..n]);
      LastWinsSnoc(p, xs[1..]);
      assert xs[..n][1..] == xs[1..][..n - 1];
      assert xs[..n][0] == xs[0] && xs[1..][n - 1] == xs[n];
    }
  }

  lemma LastWinsSnoc(p: Parser, xs: seq<Pair>)
    requires xs != [] && forall x <- xs :: Accept(p, x.key, x.value).Some?
    ensures
      var n := |xs| - 1;
      LastWins(p, xs) == LastWins(p, xs[..n])[xs[n].key := Accept(p, xs[n].key, xs[n].value).value]
  {
    hide Accept;
  }

  lemma LastWinsNone(p: Parser, xs: seq<Pair>)
    requires xs == []
    ensures LastWins(p, xs) == map[]
  {
  }

  /** The join of writable pairs is valid iff every pair is acceptable by itself, and then gives back
    * every key with its last value. */
  lemma {:induction false} ParseJoin(p: Parser, xs: seq<Pair>)
    requires forall x <- xs :: Writable(x)
    ensures Parsed(p, Join(xs)).valid <==> forall x <- xs :: Accept(p, x.key, x.value).Some?
    ensures Parsed(p, Join(xs)).valid ==> Parsed(p, Join(xs)).values == LastWins(p, xs)
    decreases |xs|
  {
    if xs == [] {
      NothingToParse(p, map[]);
    } else {
      ParseOne(p, xs[0]);
      assert xs == [xs[0]] + xs[1..];
      ParseJoin(p, xs[1..]);
      if |xs| > 1 {
        ParseConcat(p, Text(xs[0]), Join(xs[1..]));
      }
      hide Parsed, Accept, Writable;
      if forall x <- xs :: Accept(p, x.key, x.value).Some? {
        LastWinsTail(p, xs);
      }
    }
  }

  // --- What is accepted, and what a string option yields.

  /** A value is acceptable iff its key is known, it is there where one is required and not where none is allowed, and
    * an integer is one. It is stored as the kind of the option says. */
  lemma AcceptIff(p: Parser, key: string, value: string)
    ensures
      Accept(p, key, value).Some? <==>
      && key in p.options
      && (value == "" ==> !p.options[key].argument.ArgumentRequired?)
      && (value != "" ==> !p.options[key].argument.ArgumentNone?)
      && (p.options[key].kind.OptionInteger? ==> p.toInteger(value).Some?)
    ensures
      Accept(p, key, value).Some? ==>
        var v := Accept(p, key, value).value;
        && (p.options[key].kind.OptionNone? ==> v == ValueNone)
        && (p.options[key].kind.OptionString? ==> v == ValueString(value))
        && (p.options[key].kind.OptionInteger? ==> v == ValueInteger(p.toInteger(value).value))
  {
  }

  /** A pair whose key does not come again gives its key the value. */
  lemma {:induction false} LastWinsIs(p: Parser, xs: seq<Pair>, i: nat)
    requires forall x <- xs :: Accept(p, x.key, x.value).Some?
    requires i < |xs| && forall j | i < j < |xs| :: xs[j].key != xs[i].key
    ensures xs[i].key in LastWins(p, xs) && LastWins(p, xs)[xs[i].key] == Accept(p, xs[i].key, xs[i].value).value
    decreases |xs|
  {
    hide Accept;
    if i < |xs| - 1 {
      LastWinsIs(p, xs[..|xs| - 1], i);
    }
  }

  /** Strings that are joined come back as they are: the last one for each key. */
  lemma StringsComeBack(p: Parser, xs: seq<Pair>, i: nat)
    requires forall x <- xs :: Writable(x) && x.key in p.options && p.options[x.key].kind.OptionString?
    requires forall x <- xs :: p.options[x.key].argument.ArgumentOptional?
    requires i < |xs| && forall j | i < j < |xs| :: xs[j].key != xs[i].key
    ensures Parsed(p, Join(xs)).valid
    ensures
      && xs[i].key in Parsed(p, Join(xs)).values
      && Parsed(p, Join(xs)).values[xs[i].key] == ValueString(xs[i].value)
  {
    forall x <- xs
      ensures Accept(p, x.key, x.value) == Some(ValueString(x.value))
    {
      AcceptIff(p, x.key, x.value);
    }
    hide Accept, Parsed, Join, Writable;
    ParseJoin(p, xs);
    LastWinsIs(p, xs, i);
  }
}
