/** Command-line flags: `--key=value`, `--key value` and `--key`, with repeated keys collected into a
    JSON array. */
module Flags {
  import opened GoStrings
  import opened Wrappers

  datatype Pair = Pair(key: string, value: string)

  /** json.Marshal of a string slice, and json.Unmarshal back into one. */
  datatype JsonList = JsonList(encode: seq<string> -> string, decode: string -> Option<seq<string>>)

  predicate IsFlag(arg: string) { HasPrefix(arg, "--") }

  /** A flag that takes the next argument as its value, if that is not a flag itself. */
  predicate IsOpen(arg: string) { IsFlag(arg) && '=' !in arg }

  // ----- What the arguments mean -----

  /** How the flag at the head reads, and how many arguments it takes. */
  function Head(args: seq<string>): (Pair, nat)
    requires args != [] && IsFlag(args[0])
  {
    var arg := args[0][2..];
    var i := IndexOf(arg, '=');
    if i < |arg| then (Pair(arg[..i], arg[i + 1..]), 1)
    else if |args| > 1 && !IsFlag(args[1]) then (Pair(arg, args[1]), 2)
    else (Pair(arg, "true"), 1)
  }

  function Pairs(args: seq<string>): Option<seq<Pair>>
    decreases |args|
  {
    if args == [] then Some([])
    else if !IsFlag(args[0]) then None
    else
      var (p, n) := Head(args);
      match Pairs(args[n..])
      case None => None
      case Some(rest) => Some([p] + rest)
  }

  /** The values given to a key, in order. */
  function ValuesOf(pairs: seq<Pair>, key: string): seq<string>
    decreases |pairs|
  {
    if pairs == [] then []
    else (if pairs[0].key == key then [pairs[0].value] else []) + ValuesOf(pairs[1..], key)
  }

  function Encoded(json: JsonList, values: seq<string>): string
    requires values != []
  {
    if |values| == 1 then values[0] else json.encode(values)
  }

  /** A key with one value means that value, a repeated key the JSON array of its values. */
  function Grouped(json: JsonList, pairs: seq<Pair>): map<string, string> {
    map k | k in KeysOf(pairs) :: Encoded(json, ValuesOf(pairs, k))
  }

  function KeysOf(pairs: seq<Pair>): (keys: set<string>)
    ensures forall k :: k in keys <==> ValuesOf(pairs, k) != []
    decreases |pairs|
  {
    if pairs == [] then {} else {pairs[0].key} + KeysOf(pairs[1..])
  }

  lemma {:induction false} ValuesConcat(xs: seq<Pair>, ys: seq<Pair>, key: string)
    ensures ValuesOf(xs + ys, key) == ValuesOf(xs, key) + ValuesOf(ys, key)
    decreases |xs|
  {
    if xs == [] {
      assert xs + ys == ys;
    } else {
      assert (xs + ys)[1..] == xs[1..] + ys;
      ValuesConcat(xs[1..], ys, key);
    }
  }

  // ----- The code -----

  /** First values in `flags`, and for repeated keys every value in `multi`. */
  ghost predicate TracksAt(flags: map<string, string>, multi: map<string, seq<string>>, pairs: seq<Pair>, k: string) {
    var vs := ValuesOf(pairs, k);
    && (k in flags <==> vs != []) && (k in flags ==> flags[k] == vs[0])
    && (k in multi <==> |vs| > 1) && (k in multi ==> multi[k] == vs)
  }

  ghost predicate Tracks(flags: map<string, string>, multi: map<string, seq<string>>, pairs: seq<Pair>) {
    forall k :: TracksAt(flags, multi, pairs, k)
  }

  lemma ValuesSnoc(pairs: seq<Pair>, p: Pair, k: string)
    ensures ValuesOf(pairs + [p], k) == ValuesOf(pairs, k) + (if k == p.key then [p.value] else [])
  {
    ValuesConcat(pairs, [p], k);
    assert [p][1..] == [];
  }

  lemma TracksNew(flags: map<string, string>, multi: map<string, seq<string>>, pairs: seq<Pair>, p: Pair)
    requires Tracks(flags, multi, pairs) && p.key !in flags
    ensures Tracks(flags[p.key := p.value], multi, pairs + [p])
  {
    var flags', pairs' := flags[p.key := p.value], pairs + [p];
    forall k
      ensures TracksAt(flags', multi, pairs', k)
    {
      assert TracksAt(flags, multi, pairs, k);
      ValuesSnoc(pairs, p, k);
    }
  }

  lemma TracksRepeated(flags: map<string, string>, multi: map<string, seq<string>>, pairs: seq<Pair>, p: Pair)
    requires Tracks(flags, multi, pairs) && p.key in flags
    ensures var before := if p.key in multi then multi[p.key] else [flags[p.key]];
            Tracks(flags, multi[p.key := before + [p.value]], pairs + [p])
  {
    var before := if p.key in multi then multi[p.key] else [flags[p.key]];
    assert TracksAt(flags, multi, pairs, p.key);
    assert before == ValuesOf(pairs, p.key);
    var multi', pairs' := multi[p.key := before + [p.value]], pairs + [p];
    forall k
      ensures TracksAt(flags, multi', pairs', k)
    {
      assert TracksAt(flags, multi, pairs, k);
      ValuesSnoc(pairs, p, k);
    }
  }

  /** The pairs read so far and what is left of the arguments give the whole reading. */
  ghost predicate Splits(args: seq<string>, i: nat, pairs: seq<Pair>)
    requires i <= |args|
  {
    Pairs(args) == match Pairs(args[i..])
                   case None => None
                   case Some(rest) => Some(pairs + rest)
  }

  lemma SplitsStart(args: seq<string>)
    ensures Splits(args, 0, [])
  {
    assert args[0..] == args;
    match Pairs(args)
    case None =>
    case Some(rest) => assert [] + rest == rest;
  }

  lemma SplitsStep(args: seq<string>, at: nat, next: nat, pairs: seq<Pair>, p: Pair)
    requires at < next <= |args| && IsFlag(args[at]) && Head(args[at..]) == (p, next - at)
    requires Splits(args, at, pairs)
    ensures Splits(args, next, pairs + [p])
  {
    assert args[at..][next - at..] == args[next..];
    match Pairs(args[next..])
    case None =>
    case Some(rest) => assert pairs + ([p] + rest) == pairs + [p] + rest;
  }

  lemma SplitsEnd(args: seq<string>, pairs: seq<Pair>)
    requires Splits(args, |args|, pairs)
    ensures Pairs(args) == Some(pairs)
  {
    assert args[|args|..] == [] && pairs + [] == pairs;
  }

  method ReadFlag(args: seq<string>, i: nat) returns (key: string, value: string, next: nat)
    requires i < |args| && IsFlag(args[i])
    ensures i < next <= |args| && Head(args[i..]) == (Pair(key, value), next - i)
  {
    var arg := args[i][2..];
    var idx := IndexOf(arg, '=');
    next := i + 1;
    if idx < |arg| {
      key, value := arg[..idx], arg[idx + 1..];
    } else if i + 1 < |args| && !HasPrefix(args[i + 1], "--") {
      key, value := arg, args[i + 1];
      next := i + 2;
    } else {
      key, value := arg, "true";
    }
  }

  method ParseFlags(json: JsonList, args: seq<string>) returns (r: Option<map<string, string>>)
    ensures r == match Pairs(args)
                 case None => None
                 case Some(pairs) => Some(Grouped(json, pairs))
  {
    var flags: map<string, string> := map[];
    var multi: map<string, seq<string>> := map[];
    ghost var pairs: seq<Pair> := [];
    var i := 0;
    SplitsStart(args);
    while i < |args|
      invariant 0 <= i <= |args|
      invariant Tracks(flags, multi, pairs) && Splits(args, i, pairs)
      decreases |args| - i
    {
      if !HasPrefix(args[i], "--") {
        return None;
      }
      var key, value, next := ReadFlag(args, i);
      if key in flags {
        TracksRepeated(flags, multi, pairs, Pair(key, value));
        ghost var before := multi;
        if key !in multi {
          multi := multi[key := [flags[key]]];
        }
        multi := multi[key := multi[key] + [value]];
        assert multi == before[key := multi[key]];
      } else {
        TracksNew(flags, multi, pairs, Pair(key, value));
        flags := flags[key := value];
      }
      SplitsStep(args, i, next, pairs, Pair(key, value));
      pairs := pairs + [Pair(key, value)];
      i := next;
    }
    SplitsEnd(args, pairs);
    flags := EncodeRepeated(json, flags, multi, pairs);
    return Some(flags);
  }

  /** Replacing the repeated keys, in whatever order the map yields them. */
  method EncodeRepeated(json: JsonList, first: map<string, string>, multi: map<string, seq<string>>, ghost pairs: seq<Pair>)
    returns (flags: map<string, string>)
    requires Tracks(first, multi, pairs)
    ensures flags == Grouped(json, pairs)
  {
    flags := first;
    var left := multi.Keys;
    while left != {}
      invariant left <= multi.Keys
      invariant flags.Keys == first.Keys
      invariant forall k <- flags ::
                  flags[k] == if k in multi && k !in left then json.encode(multi[k]) else first[k]
      decreases |left|
    {
      var k :| k in left;
      assert TracksAt(first, multi, pairs, k);
      flags := flags[k := json.encode(multi[k])];
      left := left - {k};
    }
    GroupedByTracks(json, first, multi, pairs, flags);
  }

  lemma GroupedByTracks(json: JsonList, first: map<string, string>, multi: map<string, seq<string>>,
                        pairs: seq<Pair>, flags: map<string, string>)
    requires Tracks(first, multi, pairs) && flags.Keys == first.Keys
    requires forall k <- flags :: flags[k] == if k in multi then json.encode(multi[k]) else first[k]
    ensures flags == Grouped(json, pairs)
  {
    forall k
      ensures k in flags <==> k in KeysOf(pairs)
      ensures k in flags ==> flags[k] == Encoded(json, ValuesOf(pairs, k))
    {
      assert TracksAt(first, multi, pairs, k);
    }
  }

  // ----- When parsing succeeds -----

  /** Every argument that is not a flag directly follows an open flag. */
  predicate WellPlaced(args: seq<string>) {
    forall i :: 0 <= i < |args| && !IsFlag(args[i]) ==> i > 0 && IsOpen(args[i - 1])
  }

  lemma OpenHead(arg: string)
    requires IsFlag(arg)
    ensures IsOpen(arg) <==> IndexOf(arg[2..], '=') == |arg| - 2
  {
    assert '=' !in "--";
    assert arg == "--" + arg[2..];
  }

  lemma {:induction false} SucceedsIff(args: seq<string>)
    ensures Pairs(args).Some? <==> WellPlaced(args)
    decreases |args|
  {
    if args != [] && IsFlag(args[0]) {
      var n := Head(args).1;
      OpenHead(args[0]);
      SucceedsIff(args[n..]);
      forall i | 0 <= i < |args[n..]|
        ensures args[n..][i] == args[n + i]
      {}
    }
  }

  /** Grouping keeps exactly the keys given; a key given once means its value, a repeated one the JSON array
      of all its values in order. */
  lemma GroupedMeaning(json: JsonList, pairs: seq<Pair>, k: string)
    ensures k in Grouped(json, pairs) <==> exists p :: p in pairs && p.key == k
    ensures forall i :: 0 <= i < |pairs| && pairs[i].key == k && (forall j :: 0 <= j < |pairs| && j != i ==> pairs[j].key != k) ==>
                          k in Grouped(json, pairs) && Grouped(json, pairs)[k] == pairs[i].value
    ensures |ValuesOf(pairs, k)| >= 2 ==> k in Grouped(json, pairs) && Grouped(json, pairs)[k] == json.encode(ValuesOf(pairs, k))
  {
    ValuesExist(pairs, k);
    forall i | 0 <= i < |pairs| && pairs[i].key == k && (forall j :: 0 <= j < |pairs| && j != i ==> pairs[j].key != k)
      ensures ValuesOf(pairs, k) == [pairs[i].value]
    {
      OnlyValue(pairs, k, i);
    }
  }

  lemma {:induction false} ValuesExist(pairs: seq<Pair>, k: string)
    ensures ValuesOf(pairs, k) != [] <==> exists p :: p in pairs && p.key == k
    decreases |pairs|
  {
    if pairs != [] {
      ValuesExist(pairs[1..], k);
      assert forall p :: p in pairs <==> p == pairs[0] || p in pairs[1..];
    }
  }

  lemma {:induction false} OnlyValue(pairs: seq<Pair>, k: string, i: nat)
    requires i < |pairs| && pairs[i].key == k && forall j :: 0 <= j < |pairs| && j != i ==> pairs[j].key != k
    ensures ValuesOf(pairs, k) == [pairs[i].value]
    decreases |pairs|
  {
    if i > 0 {
      assert pairs[0].key != k;
      assert forall j :: 0 <= j < |pairs[1..]| ==> pairs[1..][j] == pairs[j + 1];
      OnlyValue(pairs[1..], k, i - 1);
    } else {
      assert forall j :: 0 <= j < |pairs[1..]| ==> pairs[1..][j] == pairs[j + 1];
      ValuesExist(pairs[1..], k);
    }
  }

  // ----- Printing and parsing back -----

  /** How one pair is written: joined, or as two arguments. */
  datatype Style = Joined | Apart

  predicate Printable(p: Pair, style: Style) {
    '=' !in p.key && (style.Apart? ==> !IsFlag(p.value))
  }

  function Print(p: Pair, style: Style): seq<string> {
    match style
    case Joined => ["--" + p.key + "=" + p.value]
    case Apart => ["--" + p.key, p.value]
  }

  function PrintAll(pairs: seq<Pair>, styles: seq<Style>): seq<string>
    requires |pairs| == |styles|
    decreases |pairs|
  {
    if pairs == [] then [] else Print(pairs[0], styles[0]) + PrintAll(pairs[1..], styles[1..])
  }

  lemma HeadOfPrint(p: Pair, style: Style, rest: seq<string>)
    requires Printable(p, style)
    ensures var args := Print(p, style) + rest;
            IsFlag(args[0]) && Head(args) == (p, |Print(p, style)|)
  {
    match style {
      case Joined =>
        var arg := p.key + "=" + p.value;
        assert ("--" + p.key + "=" + p.value)[2..] == arg;
        assert arg[..|p.key|] == p.key && arg[|p.key| + 1..] == p.value;
        IndexUnique(arg, '=', |p.key|);
      case Apart =>
        assert ("--" + p.key)[2..] == p.key;
        IndexUnique(p.key, '=', |p.key|);
    }
  }

  /** What is read at the head is the printed pair exactly if it was printable. */
  lemma HeadOfPrintIff(p: Pair, style: Style, rest: seq<string>)
    ensures var args := Print(p, style) + rest;
            IsFlag(args[0]) && (Head(args).0 == p <==> Printable(p, style))
  {
    var args := Print(p, style) + rest;
    if Printable(p, style) {
      HeadOfPrint(p, style, rest);
    } else if '=' in p.key {
      var tail := if style.Joined? then "=" + p.value else "";
      assert args[0][2..] == p.key + tail;
      KeyCut(p.key, tail);
    } else {
      assert args[0][2..] == p.key;
      IndexUnique(p.key, '=', |p.key|);
      assert "true"[0] == 't';
    }
  }

  lemma {:induction false} KeyCut(key: string, tail: string)
    requires '=' in key
    ensures IndexOf(key + tail, '=') < |key|
    decreases |key|
  {
    if key[0] != '=' {
      assert (key + tail)[1..] == key[1..] + tail;
      KeyCut(key[1..], tail);
    }
  }

  /** Pairs written joined or apart parse back to the same pairs in the same order, hence to the same
      grouping, exactly when no key contains an equals sign and no value written apart is itself a flag. */
  lemma {:induction false} PrintParseIff(pairs: seq<Pair>, styles: seq<Style>)
    requires |pairs| == |styles|
    ensures Pairs(PrintAll(pairs, styles)) == Some(pairs) <==>
            forall i :: 0 <= i < |pairs| ==> Printable(pairs[i], styles[i])
    decreases |pairs|
  {
    if pairs != [] {
      var first, rest := Print(pairs[0], styles[0]), PrintAll(pairs[1..], styles[1..]);
      HeadOfPrintIff(pairs[0], styles[0], rest);
      PrintParseIff(pairs[1..], styles[1..]);
      if Printable(pairs[0], styles[0]) {
        HeadOfPrint(pairs[0], styles[0], rest);
        assert (first + rest)[|first|..] == rest;
        assert [pairs[0]] + pairs[1..] == pairs;
        assert forall i :: 0 < i < |pairs| ==> pairs[i] == pairs[1..][i - 1] && styles[i] == styles[1..][i - 1];
      }
    }
  }

  /** A pair written apart whose value is a flag is not read back: the key becomes boolean. */
  lemma ApartFlagLost(key: string, value: string)
    requires '=' !in key && IsFlag(value)
    ensures Head(Print(Pair(key, value), Apart)) == (Pair(key, "true"), 1)
  {
    assert ("--" + key)[2..] == key;
    IndexUnique(key, '=', |key|);
  }
}
