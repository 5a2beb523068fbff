/** The two independent parsers of a node field's `spec` tag: the runtime splits at commas and equals
    signs, the testing package scans with an index. */
module SpecTags {
  import opened GoStrings

  datatype Entry = Entry(key: string, value: string)

  /** Later entries win. */
  function Collect(entries: seq<Entry>): map<string, string> {
    if entries == [] then map[] else map[entries[0].key := entries[0].value] + Collect(entries[1..])
  }

  lemma CollectCons(e: Entry, rest: seq<Entry>)
    ensures Collect([e] + rest) == map[e.key := e.value] + Collect(rest)
  {
    assert ([e] + rest)[1..] == rest;
  }

  function KeyOf(e: string): string { e[..IndexOf(e, '=')] }

  /** Everything after the first equals sign. */
  function RestOf(e: string): string {
    var i := IndexOf(e, '=');
    if i == |e| then "" else e[i + 1..]
  }

  /** A value up to its first equals sign. */
  function Cut(v: string): string { v[..IndexOf(v, '=')] }

  function DropSpaces(e: string): string {
    if e != [] && e[0] == ' ' then DropSpaces(e[1..]) else e
  }

  // ----- The splitting parser -----

  /** A comma-separated piece read by splitting it at every equals sign. */
  function SplitEntry(e: string): Entry {
    Entry(KeyOf(e), Cut(RestOf(e)))
  }

  function SplitEntries(pieces: seq<string>): seq<Entry> {
    if pieces == [] then [] else [SplitEntry(pieces[0])] + SplitEntries(pieces[1..])
  }

  function SplitReading(spec: string): map<string, string> {
    Collect(SplitEntries(Split(spec, ',')))
  }

  lemma SplitPiece(kv: string)
    ensures var p := Split(kv, '=');
            p[0] == KeyOf(kv) && (if |p| < 2 then Cut(RestOf(kv)) == "" else Cut(RestOf(kv)) == p[1])
  {
    var i := IndexOf(kv, '=');
    if i < |kv| {
      var rest := kv[i + 1..];
      assert Split(kv, '=') == [kv[..i]] + Split(rest, '=');
      assert Split(rest, '=')[0] == Cut(rest);
    }
  }

  lemma SplitStep(m: map<string, string>, kvs: seq<string>, i: nat)
    requires i < |kvs|
    ensures m[KeyOf(kvs[i]) := Cut(RestOf(kvs[i]))] + Collect(SplitEntries(kvs[i + 1..])) ==
            m + Collect(SplitEntries(kvs[i..]))
  {
    assert kvs[i..][1..] == kvs[i + 1..];
    CollectCons(SplitEntry(kvs[i]), SplitEntries(kvs[i + 1..]));
  }

  method ParseSpecBySplitting(spec: string) returns (m: map<string, string>)
    ensures m == SplitReading(spec)
  {
    m := map[];
    var kvs := Split(spec, ',');
    var i := 0;
    assert kvs[0..] == kvs;
    while i < |kvs|
      invariant 0 <= i <= |kvs|
      invariant m + Collect(SplitEntries(kvs[i..])) == SplitReading(spec)
    {
      var p := Split(kvs[i], '=');
      SplitPiece(kvs[i]);
      SplitStep(m, kvs, i);
      if |p| < 2 {
        m := m[p[0] := ""];
      } else {
        m := m[p[0] := p[1]];
      }
      i := i + 1;
    }
    assert m + map[] == m;
  }

  // ----- The scanning parser -----

  function ScanEntries(pieces: seq<string>): seq<Entry> {
    if pieces == [] then []
    else
      var e := DropSpaces(pieces[0]);
      (if e == "" then [] else [Entry(KeyOf(e), RestOf(e))]) + ScanEntries(pieces[1..])
  }

  function ScanReading(spec: string): map<string, string> {
    Collect(ScanEntries(Split(spec, ',')))
  }

  lemma SplitHead(s: string, sep: char)
    requires s != []
    ensures var tail := Split(s[1..], sep);
            Split(s, sep) == if s[0] == sep then [""] + tail else [[s[0]] + tail[0]] + tail[1..]
  {
    if s[0] != sep {
      var i, j := IndexOf(s, sep), IndexOf(s[1..], sep);
      assert i == j + 1;
      assert s[..i] == [s[0]] + s[1..][..j];
      if i < |s| {
        assert s[i + 1..] == s[1..][j + 1..];
        assert Split(s[1..], sep)[1..] == Split(s[i + 1..], sep);
      } else {
        assert Split(s[1..], sep) == [s[1..]] && s[..i] == s;
      }
    } else {
      assert IndexOf(s, sep) == 0 && s[..0] == "";
    }
  }

  lemma SkipOne(s: string)
    requires s != [] && (s[0] == ' ' || s[0] == ',')
    ensures ScanEntries(Split(s, ',')) == ScanEntries(Split(s[1..], ','))
  {
    SplitHead(s, ',');
    var tail := Split(s[1..], ',');
    if s[0] == ' ' {
      assert ([' '] + tail[0])[1..] == tail[0];
    }
  }

  /** The key ends at the first equals sign or comma, the piece at the first comma. */
  ghost predicate PieceBounds(s: string, key: nat, end: nat) {
    && key <= end <= |s|
    && '=' !in s[..key] && ',' !in s[..end]
    && (key < end ==> s[key] == '=')
    && (key == end < |s| ==> s[key] == ',') && (end < |s| ==> s[end] == ',')
  }

  lemma PieceParts(s: string, key: nat, end: nat)
    requires PieceBounds(s, key, end)
    ensures KeyOf(s[..end]) == s[..key]
    ensures RestOf(s[..end]) == if key < end then s[key + 1..end] else ""
  {
    var e := s[..end];
    assert e[..key] == s[..key];
    IndexUnique(e, '=', key);
  }

  lemma ScanFirst(e: string, rest: seq<string>)
    requires e != "" && e[0] != ' '
    ensures ScanEntries([e] + rest) == [Entry(KeyOf(e), RestOf(e))] + ScanEntries(rest)
  {
    assert ([e] + rest)[1..] == rest;
  }

  lemma SplitAt(s: string, sep: char, end: nat)
    requires end <= |s| && sep !in s[..end] && (end < |s| ==> s[end] == sep)
    ensures Split(s, sep) == [s[..end]] + (if end < |s| then Split(s[end + 1..], sep) else [])
  {
    IndexUnique(s, sep, end);
    assert end == |s| ==> s[..end] == s;
  }

  /** The scanner's inner loops find the key and value of the piece that starts here. */
  lemma PieceHere(s: string, end: nat)
    requires end <= |s| && s != [] && s[0] != ' ' && s[0] != ',' && ',' !in s[..end]
    requires end < |s| ==> s[end] == ','
    ensures var e := s[..end];
            ScanEntries(Split(s, ',')) == [Entry(KeyOf(e), RestOf(e))] + ScanEntries(Split(s[end..], ','))
  {
    SplitAt(s, ',', end);
    ScanFirst(s[..end], if end < |s| then Split(s[end + 1..], ',') else []);
    if end < |s| {
      assert s[end..][1..] == s[end + 1..];
      SkipOne(s[end..]);
    } else {
      SplitAt(s[end..], ',', 0);
      assert ScanEntries([""]) == [];
    }
  }

  /** What remains to be scanned, added to what was read, is the whole reading. */
  ghost predicate Scanned(result: map<string, string>, rest: string, spec: string) {
    result + ScanReading(rest) == ScanReading(spec)
  }

  lemma Absorb(result: map<string, string>, e: Entry, rest: seq<Entry>, all: map<string, string>)
    requires result + Collect([e] + rest) == all
    ensures result[e.key := e.value] + Collect(rest) == all
  {
    CollectCons(e, rest);
  }

  /** The first piece of `s`: its key, its value, and where it ends. */
  ghost predicate IsPiece(s: string, key: string, value: string, end: nat) {
    && s != [] && s[0] != ' ' && s[0] != ',' && end > 0
    && PieceBounds(s, |key|, end) && key == s[..|key|]
    && value == if |key| < end then s[|key| + 1..end] else ""
  }

  lemma ScanStep(result: map<string, string>, s: string, key: string, value: string, end: nat, spec: string)
    requires IsPiece(s, key, value, end) && Scanned(result, s, spec)
    ensures Scanned(result[key := value], s[end..], spec)
  {
    PieceHere(s, end);
    PieceParts(s, |key|, end);
    Absorb(result, Entry(KeyOf(s[..end]), RestOf(s[..end])), ScanEntries(Split(s[end..], ',')), ScanReading(spec));
  }

  lemma ScanDone(result: map<string, string>, spec: string)
    requires Scanned(result, "", spec)
    ensures result == ScanReading(spec)
  {
    assert Split("", ',') == [""] && ScanEntries([""]) == [];
    assert result + map[] == result;
  }

  /** One piece read at `start`, in positions of the whole tag. */
  ghost predicate PieceAt(spec: string, start: nat, key: string, value: string, end: nat) {
    start < end <= |spec| && IsPiece(spec[start..], key, value, end - start)
  }

  lemma ScanStepAt(result: map<string, string>, spec: string, start: nat, key: string, value: string, end: nat)
    requires PieceAt(spec, start, key, value, end) && Scanned(result, spec[start..], spec)
    ensures Scanned(result[key := value], spec[end..], spec)
  {
    ScanStep(result, spec[start..], key, value, end - start, spec);
    assert spec[start..][end - start..] == spec[end..];
  }

  lemma ScanStart(spec: string)
    ensures Scanned(map[], spec[0..], spec)
  {
    assert spec[0..] == spec;
    assert map[] + ScanReading(spec) == ScanReading(spec);
  }

  method ParseSpecByScanning(spec: string) returns (result: map<string, string>)
    ensures result == ScanReading(spec)
  {
    result := map[];
    var i := 0;
    ScanStart(spec);
    while i < |spec|
      invariant 0 <= i <= |spec| && Scanned(result, spec[i..], spec)
      decreases |spec| - i
    {
      var start := SkipSeparators(spec, i);
      SkipAll(spec, i, start);
      i := start;
      if i >= |spec| {
        break;
      }
      var key, value, end := ReadPiece(spec, i);
      ScanStepAt(result, spec, i, key, value, end);
      result := result[key := value];
      i := end;
    }
    assert spec[i..] == "";
    ScanDone(result, spec);
  }

  /** From the start of a piece: its key, its value (empty without an equals sign), and where it ends. */
  method ReadPiece(spec: string, start: nat) returns (key: string, value: string, i: nat)
    requires start < |spec| && spec[start] != ' ' && spec[start] != ','
    ensures PieceAt(spec, start, key, value, i)
  {
    i := start;
    while i < |spec| && spec[i] != '=' && spec[i] != ','
      invariant start <= i <= |spec|
      invariant '=' !in spec[start..i] && ',' !in spec[start..i]
    {
      i := i + 1;
    }
    key := spec[start..i];
    assert key == spec[start..][..|key|];
    if i >= |spec| || spec[i] == ',' {
      return key, "", i;
    }
    i := i + 1;
    var valueStart := i;
    while i < |spec| && spec[i] != ','
      invariant valueStart <= i <= |spec|
      invariant ',' !in spec[start..i]
    {
      i := i + 1;
    }
    value := spec[valueStart..i];
    assert spec[start..][..i - start] == spec[start..i];
    assert value == spec[start..][|key| + 1..i - start];
  }

  predicate Separators(spec: string, i: nat, j: nat) {
    i <= j <= |spec| && forall k :: i <= k < j ==> spec[k] == ' ' || spec[k] == ','
  }

  lemma {:induction false} SkipAll(spec: string, i: nat, j: nat)
    requires Separators(spec, i, j)
    ensures ScanReading(spec[i..]) == ScanReading(spec[j..])
    decreases j - i
  {
    if i < j {
      SkipOne(spec[i..]);
      assert spec[i..][1..] == spec[i + 1..];
      SkipAll(spec, i + 1, j);
    }
  }

  method SkipSeparators(spec: string, start: nat) returns (i: nat)
    requires start <= |spec|
    ensures Separators(spec, start, i)
    ensures i < |spec| ==> spec[i] != ' ' && spec[i] != ','
  {
    i := start;
    while i < |spec| && (spec[i] == ' ' || spec[i] == ',')
      invariant Separators(spec, start, i)
    {
      i := i + 1;
    }
  }

  // ----- When the two agree -----

  predicate NoLeadingSpace(pieces: seq<string>) {
    forall p <- pieces :: p == "" || p[0] != ' '
  }

  /** Same non-empty keys, and the splitter's value is the scanner's cut at its first equals sign. */
  ghost predicate Agree(split: map<string, string>, scan: map<string, string>) {
    forall k :: k != "" ==> (k in split <==> k in scan) && (k in split ==> split[k] == Cut(scan[k]))
  }

  lemma SplitCons(pieces: seq<string>)
    requires pieces != []
    ensures Collect(SplitEntries(pieces)) ==
            map[KeyOf(pieces[0]) := Cut(RestOf(pieces[0]))] + Collect(SplitEntries(pieces[1..]))
  {
    CollectCons(SplitEntry(pieces[0]), SplitEntries(pieces[1..]));
  }

  lemma ScanCons(pieces: seq<string>)
    requires pieces != []
    ensures var e, rest := DropSpaces(pieces[0]), Collect(ScanEntries(pieces[1..]));
            Collect(ScanEntries(pieces)) == if e == "" then rest else map[KeyOf(e) := RestOf(e)] + rest
  {
    var e, rest := DropSpaces(pieces[0]), ScanEntries(pieces[1..]);
    if e == "" {
      assert ScanEntries(pieces) == [] + rest == rest;
    } else {
      CollectCons(Entry(KeyOf(e), RestOf(e)), rest);
    }
  }

  lemma AgreeCons(split: map<string, string>, scan: map<string, string>, e: string)
    requires Agree(split, scan)
    ensures Agree(map[KeyOf(e) := Cut(RestOf(e))] + split,
                  if e == "" then scan else map[KeyOf(e) := RestOf(e)] + scan)
  {}

  lemma {:induction false} AgreeOn(pieces: seq<string>)
    requires NoLeadingSpace(pieces)
    ensures Agree(Collect(SplitEntries(pieces)), Collect(ScanEntries(pieces)))
    decreases |pieces|
  {
    if pieces != [] {
      assert pieces[0] in pieces;
      assert forall p <- pieces[1..] :: p in pieces;
      AgreeOn(pieces[1..]);
      SplitCons(pieces);
      ScanCons(pieces);
      AgreeCons(Collect(SplitEntries(pieces[1..])), Collect(ScanEntries(pieces[1..])), pieces[0]);
    }
  }

  lemma {:induction false} ScanKeysPlain(pieces: seq<string>)
    ensures forall k <- Collect(ScanEntries(pieces)) :: k == "" || k[0] != ' '
    decreases |pieces|
  {
    if pieces != [] {
      ScanKeysPlain(pieces[1..]);
      DropSpacesDrops(pieces[0]);
      ScanCons(pieces);
    }
  }

  lemma {:induction false} DropSpacesDrops(e: string)
    ensures DropSpaces(e) == "" || DropSpaces(e)[0] != ' '
    decreases |e|
  {
    if e != [] && e[0] == ' ' {
      DropSpacesDrops(e[1..]);
    }
  }

  lemma {:induction false} SplitKeyPresent(pieces: seq<string>, p: string)
    requires p in pieces
    ensures KeyOf(p) in Collect(SplitEntries(pieces))
    decreases |pieces|
  {
    SplitCons(pieces);
    if p != pieces[0] {
      SplitKeyPresent(pieces[1..], p);
    }
  }

  /** The two parsers agree on a tag exactly when none of its comma-separated entries starts with a
      space. */
  lemma ParsersAgreeIff(spec: string)
    ensures Agree(SplitReading(spec), ScanReading(spec)) <==> NoLeadingSpace(Split(spec, ','))
  {
    var pieces := Split(spec, ',');
    if NoLeadingSpace(pieces) {
      AgreeOn(pieces);
    } else {
      var p :| p in pieces && p != "" && p[0] == ' ';
      SplitKeyPresent(pieces, p);
      assert KeyOf(p) != "" && KeyOf(p)[0] == ' ';
      ScanKeysPlain(pieces);
    }
  }

  predicate OneEquals(pieces: seq<string>) {
    forall p <- pieces :: '=' !in RestOf(p)
  }

  predicate NoEqualsIn(m: map<string, string>) {
    forall k <- m :: '=' !in m[k]
  }

  lemma {:induction false} ScanValuesPlain(pieces: seq<string>)
    requires NoLeadingSpace(pieces) && OneEquals(pieces)
    ensures NoEqualsIn(Collect(ScanEntries(pieces)))
    decreases |pieces|
  {
    if pieces != [] {
      assert pieces[0] in pieces;
      assert forall p <- pieces[1..] :: p in pieces;
      ScanValuesPlain(pieces[1..]);
      ScanCons(pieces);
    }
  }

  /** With at most one equals sign per entry the two readings are equal on every non-empty key. */
  lemma ParsersEqual(spec: string)
    requires NoLeadingSpace(Split(spec, ',')) && OneEquals(Split(spec, ','))
    ensures SplitReading(spec) - {""} == ScanReading(spec) - {""}
  {
    ParsersAgreeIff(spec);
    ScanValuesPlain(Split(spec, ','));
    EqualApart(SplitReading(spec), ScanReading(spec));
  }

  lemma EqualApart(a: map<string, string>, b: map<string, string>)
    requires Agree(a, b) && NoEqualsIn(b)
    ensures a - {""} == b - {""}
  {
    forall k | k != "" && k in a
      ensures a[k] == b[k]
    {
      assert IndexOf(b[k], '=') == |b[k]| && b[k][..|b[k]|] == b[k];
    }
  }

  // ----- Printing a tag and reading it back -----

  /** An entry that both parsers can take apart again: no comma anywhere, no equals sign, and a key that does
      not start with a space. */
  predicate Printable(e: Entry) {
    && ',' !in e.key && '=' !in e.key && (e.key == "" || e.key[0] != ' ')
    && ',' !in e.value && '=' !in e.value
  }

  function PrintEntry(e: Entry): string { e.key + "=" + e.value }

  function PrintEntries(entries: seq<Entry>): seq<string> {
    if entries == [] then [] else [PrintEntry(entries[0])] + PrintEntries(entries[1..])
  }

  lemma EntryParts(e: Entry)
    requires Printable(e)
    ensures var p := PrintEntry(e);
            && KeyOf(p) == e.key && RestOf(p) == e.value && Cut(e.value) == e.value
            && DropSpaces(p) == p && p != "" && ',' !in p
  {
    var p := PrintEntry(e);
    IndexUnique(p, '=', |e.key|);
    IndexUnique(e.value, '=', |e.value|);
    assert p[..|e.key|] == e.key && p[|e.key| + 1..] == e.value;
  }

  lemma {:induction false} EntriesRead(entries: seq<Entry>)
    requires forall e <- entries :: Printable(e)
    ensures SplitEntries(PrintEntries(entries)) == entries && ScanEntries(PrintEntries(entries)) == entries
    decreases |entries|
  {
    if entries != [] {
      assert entries[0] in entries && forall e <- entries[1..] :: e in entries;
      var p, rest := PrintEntry(entries[0]), PrintEntries(entries[1..]);
      EntryParts(entries[0]);
      EntriesRead(entries[1..]);
      HeadRead(entries[0], p, rest);
      assert [entries[0]] + entries[1..] == entries;
    }
  }

  lemma HeadRead(e: Entry, p: string, rest: seq<string>)
    requires KeyOf(p) == e.key && RestOf(p) == e.value && Cut(e.value) == e.value && DropSpaces(p) == p && p != ""
    ensures SplitEntries([p] + rest) == [e] + SplitEntries(rest) && ScanEntries([p] + rest) == [e] + ScanEntries(rest)
  {
    assert ([p] + rest)[1..] == rest;
  }

  lemma {:induction false} PrintedPlain(entries: seq<Entry>)
    requires forall e <- entries :: Printable(e)
    ensures |PrintEntries(entries)| == |entries| && forall p <- PrintEntries(entries) :: ',' !in p
    decreases |entries|
  {
    if entries != [] {
      assert entries[0] in entries && forall e <- entries[1..] :: e in entries;
      EntryParts(entries[0]);
      PrintedPlain(entries[1..]);
    }
  }

  lemma BothCollect(entries: seq<Entry>)
    requires entries != [] && forall e <- entries :: Printable(e)
    ensures PrintEntries(entries) != []
    ensures var tag := Join(PrintEntries(entries), ','); SplitReading(tag) == ScanReading(tag) == Collect(entries)
  {
    EntriesRead(entries);
    PrintedPlain(entries);
    SplitJoin(PrintEntries(entries), ',');
  }

  /** The last entry with a key. */
  predicate LastWith(entries: seq<Entry>, k: string, i: nat) {
    i < |entries| && entries[i].key == k && forall j :: i < j < |entries| ==> entries[j].key != k
  }

  /** A tag printed from entries is read back by both parsers as those entries: the keys are theirs, and the
      last of a repeated key wins. */
  lemma TagReadsBack(entries: seq<Entry>, k: string)
    requires entries != [] && forall e <- entries :: Printable(e)
    ensures PrintEntries(entries) != []
    ensures var tag := Join(PrintEntries(entries), ',');
            && SplitReading(tag) == ScanReading(tag)
            && (k in SplitReading(tag) <==> exists e :: e in entries && e.key == k)
            && forall i: nat :: LastWith(entries, k, i) ==> k in SplitReading(tag) && SplitReading(tag)[k] == entries[i].value
  {
    BothCollect(entries);
    CollectKeys(entries, k);
    forall i: nat | LastWith(entries, k, i)
      ensures k in Collect(entries) && Collect(entries)[k] == entries[i].value
    {
      LastCollected(entries, k, i);
    }
  }

  lemma {:induction false} CollectKeys(entries: seq<Entry>, k: string)
    ensures k in Collect(entries) <==> exists e :: e in entries && e.key == k
    decreases |entries|
  {
    if entries != [] {
      CollectKeys(entries[1..], k);
      assert forall e :: e in entries <==> e == entries[0] || e in entries[1..];
    }
  }

  lemma {:induction false} LastCollected(entries: seq<Entry>, k: string, i: nat)
    requires LastWith(entries, k, i)
    ensures k in Collect(entries) && Collect(entries)[k] == entries[i].value
    decreases |entries|
  {
    if i > 0 {
      assert LastWith(entries[1..], k, i - 1);
      LastCollected(entries[1..], k, i - 1);
    } else {
      CollectKeys(entries[1..], k);
    }
  }
}
