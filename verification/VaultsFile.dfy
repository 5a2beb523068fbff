/** The `.vaults` file: a line-based reading of a "vaults:" section into the caller's map. */
module VaultsFile {
  import opened GoStrings
  import opened Wrappers

  type Bytes = seq<bv8>

  /** base64.StdEncoding. */
  datatype Base64 = Base64(encode: Bytes -> string, decode: string -> Option<Bytes>)

  datatype Entry = Entry(id: string, secret: Bytes)

  // ----- What one line says -----

  predicate Skipped(line: string) { TrimSpace(line) == "" || TrimSpace(line) == "---" }

  predicate Header(line: string) { TrimSpace(line) == "vaults:" }

  predicate Indented(line: string) { HasPrefix(line, " ") || HasPrefix(line, "\t") }

  /** A new top-level key ends the section. */
  predicate Ends(line: string) { !Skipped(line) && !Header(line) && !Indented(line) }

  /** The first position of ": ", or the length of `s`. */
  function ColonSpace(s: string): (i: nat)
    ensures i <= |s| && (i < |s| ==> i + 1 < |s| && s[i] == ':' && s[i + 1] == ' ')
    ensures forall k :: 0 <= k < i && k + 1 < |s| ==> !(s[k] == ':' && s[k + 1] == ' ')
  {
    if |s| < 2 then |s|
    else if s[0] == ':' && s[1] == ' ' then 0
    else 1 + ColonSpace(s[1..])
  }

  function EntryOf(b64: Base64, line: string): Option<Entry> {
    var t := TrimSpace(line);
    var i := ColonSpace(t);
    if Skipped(line) || Header(line) || i == |t| then None
    else
      match b64.decode(t[i + 2..])
      case None => None
      case Some(secret) => Some(Entry(t[..i], secret))
  }

  // ----- What the file says -----

  /** The first line from `from` on that satisfies `p`, or the number of lines. */
  function FirstFrom(lines: seq<string>, p: string -> bool, from: nat): (i: nat)
    requires from <= |lines|
    ensures from <= i <= |lines| && (i < |lines| ==> p(lines[i]))
    ensures forall k :: from <= k < i ==> !p(lines[k])
    decreases |lines| - from
  {
    if from == |lines| || p(lines[from]) then from else FirstFrom(lines, p, from + 1)
  }

  /** The lines between the first header and the first line that ends the section. */
  function Section(lines: seq<string>): seq<string> {
    var h := FirstFrom(lines, Header, 0);
    if h == |lines| then [] else lines[h + 1..FirstFrom(lines, Ends, h + 1)]
  }

  /** The entries of some lines added to a map, later ones winning. */
  function AddEntries(b64: Base64, lines: seq<string>, secrets: map<string, Bytes>): map<string, Bytes>
    decreases |lines|
  {
    if lines == [] then secrets
    else AddEntries(b64, lines[1..], Add(secrets, EntryOf(b64, lines[0])))
  }

  function Add(secrets: map<string, Bytes>, e: Option<Entry>): map<string, Bytes> {
    match e
    case None => secrets
    case Some(Entry(id, secret)) => secrets[id := secret]
  }

  function Reading(b64: Base64, data: string, secrets: map<string, Bytes>): map<string, Bytes> {
    AddEntries(b64, Section(Split(data, '\n')), secrets)
  }

  lemma {:induction false} AddSnoc(b64: Base64, lines: seq<string>, line: string, secrets: map<string, Bytes>)
    ensures AddEntries(b64, lines + [line], secrets) == Add(AddEntries(b64, lines, secrets), EntryOf(b64, line))
    decreases |lines|
  {
    if lines == [] {
      assert ([] + [line])[1..] == [];
    } else {
      assert (lines + [line])[1..] == lines[1..] + [line];
      AddSnoc(b64, lines[1..], line, Add(secrets, EntryOf(b64, lines[0])));
    }
  }

  /** Where a reading stands before line `i`: what was added so far, and whether the header was seen. */
  ghost predicate AtLine(b64: Base64, lines: seq<string>, i: nat, inVaults: bool,
                         base: map<string, Bytes>, now: map<string, Bytes>)
  {
    var h := FirstFrom(lines, Header, 0);
    && i <= |lines| && (inVaults <==> i > h)
    && if inVaults then h < |lines| && i <= FirstFrom(lines, Ends, h + 1) && now == AddEntries(b64, lines[h + 1..i], base)
       else now == base
  }

  lemma FirstReached(lines: seq<string>, p: string -> bool, from: nat, i: nat)
    requires from <= |lines| && from <= i <= FirstFrom(lines, p, from) && i < |lines|
    ensures p(lines[i]) <==> FirstFrom(lines, p, from) == i
  {}

  lemma BeforeSection(b64: Base64, lines: seq<string>, i: nat, base: map<string, Bytes>, now: map<string, Bytes>)
    requires AtLine(b64, lines, i, false, base, now) && i < |lines|
    ensures AtLine(b64, lines, i + 1, Header(lines[i]), base, now)
  {
    FirstReached(lines, Header, 0, i);
    assert Header(lines[i]) ==> lines[i + 1..i + 1] == [];
  }

  lemma GrowSection(b64: Base64, lines: seq<string>, from: nat, i: nat, base: map<string, Bytes>)
    requires from <= i < |lines|
    ensures AddEntries(b64, lines[from..i + 1], base) ==
            Add(AddEntries(b64, lines[from..i], base), EntryOf(b64, lines[i]))
  {
    AddSnoc(b64, lines[from..i], lines[i], base);
    assert lines[from..i] + [lines[i]] == lines[from..i + 1];
  }

  lemma InSection(b64: Base64, lines: seq<string>, i: nat, base: map<string, Bytes>, now: map<string, Bytes>)
    requires AtLine(b64, lines, i, true, base, now) && i < |lines|
    ensures !Ends(lines[i]) ==> AtLine(b64, lines, i + 1, true, base, Add(now, EntryOf(b64, lines[i])))
    ensures Ends(lines[i]) ==> now == AddEntries(b64, Section(lines), base)
  {
    var h := FirstFrom(lines, Header, 0);
    FirstReached(lines, Ends, h + 1, i);
    GrowSection(b64, lines, h + 1, i, base);
  }

  lemma LastLine(b64: Base64, lines: seq<string>, inVaults: bool, base: map<string, Bytes>, now: map<string, Bytes>)
    requires AtLine(b64, lines, |lines|, inVaults, base, now)
    ensures now == AddEntries(b64, Section(lines), base)
  {}

  // ----- The code -----

  class VaultSecrets {
    var secrets: map<string, Bytes>

    constructor ()
      ensures secrets == map[]
    {
      secrets := map[];
    }

    method ParseVaultsFile(b64: Base64, data: string)
      modifies this
      ensures secrets == Reading(b64, data, old(secrets))
    {
      var lines := Split(data, '\n');
      var inVaults := false;
      var i := 0;
      while i < |lines|
        invariant i <= |lines| && AtLine(b64, lines, i, inVaults, old(secrets), secrets)
      {
        var stop;
        inVaults, stop := ReadLine(b64, lines, i, inVaults, old(secrets));
        if stop {
          return;
        }
        i := i + 1;
      }
      LastLine(b64, lines, inVaults, old(secrets), secrets);
    }

    /** One turn of the loop; `stop` ends the reading. */
    method ReadLine(b64: Base64, lines: seq<string>, i: nat, seen: bool, ghost base: map<string, Bytes>)
      returns (inVaults: bool, stop: bool)
      requires i < |lines| && AtLine(b64, lines, i, seen, base, secrets)
      modifies this
      ensures stop ==> secrets == AddEntries(b64, Section(lines), base)
      ensures !stop ==> AtLine(b64, lines, i + 1, inVaults, base, secrets)
    {
      var line := lines[i];
      var trimmed := TrimSpace(line);
      inVaults, stop := seen, false;
      if seen {
        InSection(b64, lines, i, base, secrets);
      } else {
        BeforeSection(b64, lines, i, base, secrets);
      }
      if trimmed == "" || trimmed == "---" {
        return;
      }
      if trimmed == "vaults:" {
        inVaults := true;
        return;
      }
      if !inVaults {
        return;
      }
      if !HasPrefix(line, " ") && !HasPrefix(line, "\t") {
        stop := true;
        return;
      }
      StoreEntry(b64, line, trimmed);
    }

    method StoreEntry(b64: Base64, line: string, trimmed: string)
      requires trimmed == TrimSpace(line) && !Skipped(line) && !Header(line)
      modifies this
      ensures secrets == Add(old(secrets), EntryOf(b64, line))
    {
      var idx := ColonSpace(trimmed);
      if idx == |trimmed| {
        return;
      }
      var vaultId := trimmed[..idx];
      var decoded := b64.decode(trimmed[idx + 2..]);
      if decoded.Some? {
        secrets := secrets[vaultId := decoded.value];
      }
    }
  }

  // ----- Printing and reading back -----

  /** Base64 round trips, gives text without white space, and is empty only for no bytes. */
  ghost predicate Faithful(b64: Base64) {
    forall s: Bytes :: b64.decode(b64.encode(s)) == Some(s) && Solid(b64.encode(s)) && (b64.encode(s) == "" <==> s == [])
  }

  predicate Solid(s: string) { forall c <- s :: !IsSpace(c) }

  datatype LineEnd = LF | CRLF

  function Cr(eol: LineEnd): string { if eol.CRLF? then "\r" else "" }

  /** One entry's line, without its newline. */
  function PrintEntry(b64: Base64, e: Entry, eol: LineEnd): string {
    "  " + e.id + ": " + b64.encode(e.secret) + Cr(eol)
  }

  predicate NoColonSpace(s: string) {
    forall k :: 0 <= k && k + 1 < |s| ==> !(s[k] == ':' && s[k + 1] == ' ')
  }

  /** An entry that can be written down: a secret to show, and an id that does not start with white
      space and does not contain the separator. */
  predicate Writable(e: Entry) {
    e.secret != [] && NoColonSpace(e.id) && (e.id == "" || !IsSpace(e.id[0]))
  }

  lemma ColonSpaceUnique(s: string, i: nat)
    requires i + 1 < |s| && s[i] == ':' && s[i + 1] == ' '
    requires forall k :: 0 <= k < i ==> !(s[k] == ':' && s[k + 1] == ' ')
    ensures ColonSpace(s) == i
  {}

  lemma TrimEntry(id: string, code: string, eol: LineEnd)
    requires (id == "" || !IsSpace(id[0])) && code != "" && Solid(code)
    ensures TrimSpace("  " + id + ": " + code + Cr(eol)) == id + ": " + code
  {
    var body := id + ": " + code;
    assert body[|body| - 1] == code[|code| - 1] && code[|code| - 1] in code;
    assert body[0] == if id == "" then ':' else id[0];
    TrimAround("  ", body, Cr(eol));
    assert "  " + id + ": " + code + Cr(eol) == "  " + body + Cr(eol);
  }

  lemma ColonAfterId(id: string, code: string)
    requires NoColonSpace(id)
    ensures ColonSpace(id + ": " + code) == |id|
  {
    var t := id + ": " + code;
    forall k | 0 <= k < |id|
      ensures !(t[k] == ':' && t[k + 1] == ' ')
    {
      assert k + 1 < |id| ==> t[k + 1] == id[k + 1];
    }
    ColonSpaceUnique(t, |id|);
  }

  lemma EntryFromParts(b64: Base64, line: string, id: string, code: string)
    requires TrimSpace(line) == id + ": " + code && NoColonSpace(id) && code != ""
    ensures EntryOf(b64, line) == match b64.decode(code)
                                  case None => None
                                  case Some(secret) => Some(Entry(id, secret))
  {
    var t := id + ": " + code;
    ColonAfterId(id, code);
    assert t[|id| + 1] == ' ' && ' ' !in "---" && ' ' !in "vaults:";
    assert t[..|id|] == id && t[|id| + 2..] == code;
  }

  lemma WritableReads(b64: Base64, e: Entry, eol: LineEnd)
    requires Faithful(b64) && Writable(e)
    ensures EntryOf(b64, PrintEntry(b64, e, eol)) == Some(e)
  {
    var code := b64.encode(e.secret);
    TrimEntry(e.id, code, eol);
    EntryFromParts(b64, PrintEntry(b64, e, eol), e.id, code);
  }

  lemma TrimLeftStart(s: string)
    ensures TrimLeft(s) == "" || !IsSpace(TrimLeft(s)[0])
  {}

  lemma {:induction false} TrimRightPrefix(s: string)
    ensures TrimRight(s) <= s
    decreases |s|
  {
    if s != [] && IsSpace(s[|s| - 1]) {
      TrimRightPrefix(s[..|s| - 1]);
    }
  }

  /** What an entry is read as never starts with white space and never contains the separator. */
  lemma ReadIdPlain(b64: Base64, line: string)
    requires EntryOf(b64, line).Some?
    ensures var id := EntryOf(b64, line).value.id; NoColonSpace(id) && (id == "" || !IsSpace(id[0]))
  {
    var t := TrimSpace(line);
    TrimLeftStart(line);
    TrimRightPrefix(TrimLeft(line));
    var i := ColonSpace(t);
    assert forall k :: 0 <= k < i ==> t[..i][k] == t[k];
  }

  /** With no secret the printed line has no separator left after the id. */
  lemma EmptySecretUnread(b64: Base64, id: string, eol: LineEnd)
    requires Faithful(b64) && NoColonSpace(id) && (id == "" || !IsSpace(id[0]))
    ensures EntryOf(b64, PrintEntry(b64, Entry(id, []), eol)).None?
  {
    var body := id + ":";
    assert b64.encode([]) == "";
    var line := PrintEntry(b64, Entry(id, []), eol);
    assert line == "  " + body + (" " + Cr(eol));
    TrimAround("  ", body, " " + Cr(eol));
    assert TrimSpace(line) == body;
    forall k | 0 <= k && k + 1 < |body|
      ensures !(body[k] == ':' && body[k + 1] == ' ')
    {
      assert k + 1 < |id| ==> body[k + 1] == id[k + 1];
    }
    assert ColonSpace(body) == |body|;
  }

  /** A printed entry reads back as itself exactly when it is writable. */
  lemma EntryReadsBackIff(b64: Base64, e: Entry, eol: LineEnd)
    requires Faithful(b64)
    ensures EntryOf(b64, PrintEntry(b64, e, eol)) == Some(e) <==> Writable(e)
  {
    if Writable(e) {
      WritableReads(b64, e, eol);
    } else if EntryOf(b64, PrintEntry(b64, e, eol)) == Some(e) {
      ReadIdPlain(b64, PrintEntry(b64, e, eol));
      EmptySecretUnread(b64, e.id, eol);
    }
  }

  /** The lines of a whole file: the header, the entries, and the empty piece after the last newline. */
  function PrintLines(b64: Base64, entries: seq<Entry>, eol: LineEnd): seq<string> {
    ["vaults:" + Cr(eol)] + EntryLines(b64, entries, eol) + [""]
  }

  function EntryLines(b64: Base64, entries: seq<Entry>, eol: LineEnd): seq<string> {
    if entries == [] then [] else [PrintEntry(b64, entries[0], eol)] + EntryLines(b64, entries[1..], eol)
  }

  function PrintFile(b64: Base64, entries: seq<Entry>, eol: LineEnd): string {
    Join(PrintLines(b64, entries, eol), '\n')
  }

  function Stored(entries: seq<Entry>, secrets: map<string, Bytes>): map<string, Bytes> {
    if entries == [] then secrets else Stored(entries[1..], secrets[entries[0].id := entries[0].secret])
  }

  predicate WritableAll(entries: seq<Entry>) {
    forall e <- entries :: Writable(e) && '\n' !in e.id
  }

  lemma {:induction false} EntryLinesRead(b64: Base64, entries: seq<Entry>, eol: LineEnd, secrets: map<string, Bytes>)
    requires Faithful(b64) && WritableAll(entries)
    ensures AddEntries(b64, EntryLines(b64, entries, eol) + [""], secrets) == Stored(entries, secrets)
    decreases |entries|
  {
    var lines := EntryLines(b64, entries, eol) + [""];
    if entries == [] {
      assert lines == [""] && lines[1..] == [];
    } else {
      assert entries[0] in entries && forall e <- entries[1..] :: e in entries;
      WritableReads(b64, entries[0], eol);
      assert lines[0] == PrintEntry(b64, entries[0], eol);
      assert lines[1..] == EntryLines(b64, entries[1..], eol) + [""];
      EntryLinesRead(b64, entries[1..], eol, secrets[entries[0].id := entries[0].secret]);
    }
  }

  lemma {:induction false} EntryLinesPlain(b64: Base64, entries: seq<Entry>, eol: LineEnd)
    requires Faithful(b64) && WritableAll(entries)
    ensures forall l <- EntryLines(b64, entries, eol) :: '\n' !in l && !Ends(l)
    decreases |entries|
  {
    if entries != [] {
      var e := entries[0];
      assert e in entries && forall x <- entries[1..] :: x in entries;
      EntryLinesPlain(b64, entries[1..], eol);
      assert Solid(b64.encode(e.secret)) && IsSpace('\n');
      assert PrintEntry(b64, e, eol)[..1] == " ";
    }
  }

  /** Any entries with secrets and writable ids, printed with either line end, read back exactly, the
      last of a repeated id winning; what the caller's map already held is kept. */
  lemma PrintReadsBack(b64: Base64, entries: seq<Entry>, eol: LineEnd, secrets: map<string, Bytes>)
    requires Faithful(b64) && WritableAll(entries)
    ensures Reading(b64, PrintFile(b64, entries, eol), secrets) == Stored(entries, secrets)
  {
    var first, rest := "vaults:" + Cr(eol), EntryLines(b64, entries, eol) + [""];
    assert PrintLines(b64, entries, eol) == [first] + rest;
    EntryLinesPlain(b64, entries, eol);
    SplitJoin([first] + rest, '\n');
    HeaderLine(eol);
    WholeSection(first, rest);
    EntryLinesRead(b64, entries, eol, secrets);
  }

  lemma WholeSection(header: string, rest: seq<string>)
    requires Header(header) && forall l <- rest :: !Ends(l)
    ensures Section([header] + rest) == rest
  {
    var lines := [header] + rest;
    FirstReached(lines, Header, 0, 0);
    assert FirstFrom(lines, Ends, 1) == |lines|;
    assert lines[1..|lines|] == rest;
  }

  lemma HeaderLine(eol: LineEnd)
    ensures Header("vaults:" + Cr(eol))
  {
    TrimAround("", "vaults:", Cr(eol));
    assert "" + "vaults:" + Cr(eol) == "vaults:" + Cr(eol);
  }

  // ----- What stands around the section -----

  /** A line that ends the section: not indented, and neither blank, nor a document separator, nor another
      header. */
  predicate Terminates(line: string) {
    && line != "" && line[0] != ' ' && line[0] != '\t'
    && TrimSpace(line) != "" && TrimSpace(line) != "---" && TrimSpace(line) != "vaults:"
  }

  /** These are exactly the lines that end it; indentation by a space or a tab alike keeps a line inside. */
  lemma EndsIff(line: string)
    ensures Ends(line) <==> Terminates(line)
  {
    if line != "" {
      assert HasPrefix(line, " ") <==> line[0] == ' ';
      assert HasPrefix(line, "\t") <==> line[0] == '\t';
    }
  }

  /** What a line says does not depend on the white space around it: blank lines, separators, headers and
      lines without ": " say nothing; any other line gives the id before the first ": " and the bytes the rest
      decodes to, or nothing if it does not decode. */
  lemma EntryByText(b64: Base64, line: string, id: string, code: string)
    requires NoColonSpace(id)
    ensures TrimSpace(line) == "" || TrimSpace(line) == "---" || TrimSpace(line) == "vaults:" ==> EntryOf(b64, line) == None
    ensures NoColonSpace(TrimSpace(line)) ==> EntryOf(b64, line) == None
    ensures TrimSpace(line) == id + ": " + code && code != "" ==>
              EntryOf(b64, line) == match b64.decode(code) case None => None case Some(secret) => Some(Entry(id, secret))
  {
    if TrimSpace(line) == id + ": " + code && code != "" {
      EntryFromParts(b64, line, id, code);
    }
  }

  lemma {:induction false} SkipBefore(before: seq<string>, rest: seq<string>, i: nat)
    requires forall l <- before :: TrimSpace(l) != "vaults:"
    requires rest != [] && TrimSpace(rest[0]) == "vaults:" && i <= |before|
    ensures FirstFrom(before + rest, Header, i) == |before|
    decreases |before| - i
  {
    if i < |before| {
      assert (before + rest)[i] == before[i] && before[i] in before;
      SkipBefore(before, rest, i + 1);
    }
  }

  lemma {:induction false} EndsAt(lines: seq<string>, from: nat, end: nat)
    requires from <= end < |lines| && Terminates(lines[end])
    requires forall k :: from <= k < end ==> !Ends(lines[k])
    ensures FirstFrom(lines, Ends, from) == end
    decreases end - from
  {
    if from < end {
      EndsAt(lines, from + 1, end);
    }
  }

  function Around(before: seq<string>, header: string, body: seq<string>, end: string, after: seq<string>): seq<string> {
    before + ([header] + body + [end] + after)
  }

  lemma BodyPlaces(before: seq<string>, header: string, body: seq<string>, end: string, after: seq<string>)
    ensures var lines, h := Around(before, header, body, end, after), |before|;
            && lines[h + 1..h + 1 + |body|] == body && lines[h + 1 + |body|] == end
            && forall k :: h + 1 <= k < h + 1 + |body| ==> lines[k] == body[k - h - 1]
  {}

  /** The section is what stands between the first header and the first line that ends it. */
  lemma SectionBetween(before: seq<string>, header: string, body: seq<string>, end: string, after: seq<string>)
    requires (forall l <- before :: TrimSpace(l) != "vaults:") && TrimSpace(header) == "vaults:" && Terminates(end)
    requires forall l <- body :: !Ends(l)
    ensures Section(Around(before, header, body, end, after)) == body
  {
    var lines, h := Around(before, header, body, end, after), |before|;
    SkipBefore(before, [header] + body + [end] + after, 0);
    BodyPlaces(before, header, body, end, after);
    assert forall k :: 0 <= k < |body| ==> body[k] in body;
    EndsAt(lines, h + 1, h + 1 + |body|);
  }

  /** Whatever precedes the first header and whatever follows the first line that ends the section is
      ignored: the printed entries between them are read, and nothing else. */
  lemma SectionReadsBack(b64: Base64, before: seq<string>, header: string, entries: seq<Entry>, end: string,
                         after: seq<string>, eol: LineEnd, secrets: map<string, Bytes>)
    requires Faithful(b64) && WritableAll(entries)
    requires (forall l <- before :: TrimSpace(l) != "vaults:") && TrimSpace(header) == "vaults:" && Terminates(end)
    requires forall l <- before + [header, end] + after :: '\n' !in l
    ensures Reading(b64, Join(Around(before, header, EntryLines(b64, entries, eol), end, after), '\n'), secrets) ==
            Stored(entries, secrets)
  {
    var body := EntryLines(b64, entries, eol);
    EntryLinesPlain(b64, entries, eol);
    AllPlain(before, header, body, end, after);
    SplitJoin(Around(before, header, body, end, after), '\n');
    SectionBetween(before, header, body, end, after);
    EntryLinesOnly(b64, entries, eol, secrets);
  }

  lemma AllPlain(before: seq<string>, header: string, body: seq<string>, end: string, after: seq<string>)
    requires forall l <- before + [header, end] + after :: '\n' !in l
    requires forall l <- body :: '\n' !in l
    ensures forall l <- Around(before, header, body, end, after) :: '\n' !in l
  {
    var outer := before + [header, end] + after;
    assert forall l <- before :: l in outer;
    assert forall l <- after :: l in outer;
    assert outer[|before|] == header && outer[|before| + 1] == end;
  }

  lemma {:induction false} EntryLinesOnly(b64: Base64, entries: seq<Entry>, eol: LineEnd, secrets: map<string, Bytes>)
    requires Faithful(b64) && WritableAll(entries)
    ensures AddEntries(b64, EntryLines(b64, entries, eol), secrets) == Stored(entries, secrets)
    decreases |entries|
  {
    if entries != [] {
      assert entries[0] in entries && forall e <- entries[1..] :: e in entries;
      WritableReads(b64, entries[0], eol);
      assert EntryLines(b64, entries, eol)[1..] == EntryLines(b64, entries[1..], eol);
      EntryLinesOnly(b64, entries[1..], eol, secrets[entries[0].id := entries[0].secret]);
    }
  }
}
