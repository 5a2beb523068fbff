/** The laws assumed of library code can be met: for each of them one instance that has it. */
module Laws {
  import opened GoStrings
  import opened Wrappers
  import CliPipeline
  import CliRouting
  import Flags
  import InVariables
  import MessageContext
  import NodeTypes
  import ValueBridge
  import VaultCrypto
  import VaultsFile

  // ----- JSON coding of a list of strings -----

  /** Every character is marked, so that an unmarked comma ends an element. */
  function Marked(x: string): string {
    if x == "" then "" else "." + [x[0]] + Marked(x[1..])
  }

  function Body(xs: seq<string>): string {
    if xs == [] then "" else Marked(xs[0]) + "," + Body(xs[1..])
  }

  function Encode(xs: seq<string>): string { "[" + Body(xs) + "]" }

  /** The element at the head, and what follows it. */
  function Unmarked(s: string): (r: (string, string))
    ensures |r.1| <= |s|
  {
    if |s| >= 2 && s[0] == '.' then
      var (x, rest) := Unmarked(s[2..]);
      ([s[1]] + x, rest)
    else ("", s)
  }

  function Elements(s: string): seq<string>
    decreases |s|
  {
    var (x, rest) := Unmarked(s);
    if rest == "" then [] else [x] + Elements(rest[1..])
  }

  function Decode(s: string): Option<seq<string>> {
    if |s| < 2 then None else Some(Elements(s[1..|s| - 1]))
  }

  lemma {:induction false} UnmarkedMarked(x: string, rest: string)
    requires rest != "" && rest[0] == ','
    ensures Unmarked(Marked(x) + rest) == (x, rest)
    decreases |x|
  {
    var s := Marked(x) + rest;
    if x == "" {
      assert s == rest;
    } else {
      assert s[0] == '.' && s[1] == x[0] && s[2..] == Marked(x[1..]) + rest;
      UnmarkedMarked(x[1..], rest);
      assert [x[0]] + x[1..] == x;
    }
  }

  lemma {:induction false} ElementsBody(xs: seq<string>)
    ensures Elements(Body(xs)) == xs
    decreases |xs|
  {
    if xs != [] {
      var rest := "," + Body(xs[1..]);
      assert Body(xs) == Marked(xs[0]) + rest && rest[1..] == Body(xs[1..]);
      UnmarkedMarked(xs[0], rest);
      ElementsBody(xs[1..]);
    }
  }

  lemma JsonLaws() returns (json: Flags.JsonList, el: InVariables.Elements<string>)
    ensures CliPipeline.Lawful(json) && CliPipeline.Decodes(el, json)
  {
    json := Flags.JsonList(Encode, Decode);
    el := InVariables.Elements(Decode, s => Some(s), _ => None);
    forall xs: seq<string>
      ensures Decode(Encode(xs)) == Some(xs) && HasPrefix(Encode(xs), "[") && Trimmed(Encode(xs))
    {
      assert Encode(xs)[1..|Encode(xs)| - 1] == Body(xs);
      ElementsBody(xs);
    }
  }

  const FLAG: string := "u"

  lemma NodeWitness() returns (cases: CliRouting.Cases, fields: seq<NodeTypes.Field>)
    ensures CliPipeline.WellNamed(fields) && CliRouting.DistinctFlags(cases, fields) && |fields| == 1
    ensures fields[0].IsVar() && CliRouting.FlagOf(cases, fields[0]) == Some(FLAG) && CliPipeline.Reaches(fields[0])
  {
    cases := CliRouting.Cases(s => s, s => s);
    var f := NodeTypes.Field("U", NodeTypes.InVar, map["name" := FLAG]);
    fields := [f];
    assert f.Low() == "u" && |"guid"| == 4 && |"name"| == 4;
    assert f.Get("name") == "u" && f.Get("scope") == "";
  }

  lemma ArgumentsWitness() returns (args: seq<string>, pairs: seq<Flags.Pair>)
    ensures Flags.Pairs(args) == Some(pairs) && |Flags.ValuesOf(pairs, FLAG)| == 2
    ensures Flags.KeysOf(pairs) == {FLAG}
  {
    var last := Flags.Pair(FLAG, "b");
    pairs := [Flags.Pair(FLAG, "a"), last];
    var styles := [Flags.Joined, Flags.Joined];
    args := Flags.PrintAll(pairs, styles);
    Flags.PrintParseIff(pairs, styles);
    assert pairs[1..] == [last] && [last][1..] == [];
    assert Flags.ValuesOf([last], FLAG) == ["b"];
  }

  /** A node, a command line and an iteration order that meet every condition of reading a repeated flag. */
  lemma RepeatedFlagWitness(json: Flags.JsonList)
    returns (cases: CliRouting.Cases, fields: seq<NodeTypes.Field>, args: seq<string>, order: seq<string>)
    ensures CliPipeline.WellNamed(fields) && CliRouting.DistinctFlags(cases, fields) && |fields| == 1
    ensures fields[0].IsVar() && CliRouting.FlagOf(cases, fields[0]) == Some(FLAG) && CliPipeline.Reaches(fields[0])
    ensures FLAG !in CliPipeline.GLOBALS
    ensures Flags.Pairs(args).Some? && |Flags.ValuesOf(Flags.Pairs(args).value, FLAG)| == 2
    ensures var flags := Flags.Grouped(json, Flags.Pairs(args).value) - CliPipeline.GLOBALS;
            && CliRouting.Consistent(cases, CliRouting.FlagMap(cases, fields), flags)
            && CliRouting.IsOrder(order, flags.Keys)
  {
    cases, fields := NodeWitness();
    var pairs;
    args, pairs := ArgumentsWitness();
    assert |FLAG| == 1;
    assert Flags.Grouped(json, pairs).Keys == {FLAG};
    order := CliRouting.OrderExists((Flags.Grouped(json, pairs) - CliPipeline.GLOBALS).Keys);
  }

  // ----- base64 -----

  const FIRST: int := 0x100

  /** One character a byte, none of them white space. */
  function Written(s: VaultsFile.Bytes): string {
    seq(|s|, i requires 0 <= i < |s| => (FIRST + s[i] as int) as char)
  }

  function ReadBack(t: string): Option<VaultsFile.Bytes> {
    if forall c <- t :: FIRST <= c as int < FIRST + 256
    then Some(seq(|t|, i requires 0 <= i < |t| => ByteOf(t[i])))
    else None
  }

  function ByteOf(c: char): bv8 {
    if FIRST <= c as int < FIRST + 256 then (c as int - FIRST) as bv8 else 0
  }

  lemma ByteBack(b: bv8)
    ensures ByteOf((FIRST + b as int) as char) == b
  {}

  lemma Base64Laws() returns (b64: VaultsFile.Base64)
    ensures VaultsFile.Faithful(b64)
  {
    b64 := VaultsFile.Base64(Written, ReadBack);
    forall s: VaultsFile.Bytes
      ensures ReadBack(Written(s)) == Some(s) && VaultsFile.Solid(Written(s)) && (Written(s) == "" <==> s == [])
    {
      var t := Written(s);
      forall i | 0 <= i < |s|
        ensures ByteOf(t[i]) == s[i]
      {
        ByteBack(s[i]);
      }
      assert forall i :: 0 <= i < |t| ==> FIRST <= t[i] as int < FIRST + 256;
      assert seq(|t|, i requires 0 <= i < |t| => ByteOf(t[i])) == s;
    }
  }

  // ----- The block cipher and fmt.Sprint -----

  lemma CipherLaws() returns (aes: VaultCrypto.Aes)
    ensures VaultCrypto.AesInverts(aes)
  {
    aes := _ => VaultCrypto.Cipher(b => b, b => b);
  }

  function Printed(v: ValueBridge.Go): string {
    match v
    case StringVal(s, _) => s
    case Iface(StringVal(s, _)) => s
    case _ => ""
  }

  lemma SprintLaws() returns (show: ValueBridge.Show)
    ensures ValueBridge.PrintsStrings(show)
  {
    show := Printed;
  }
}
