/** The audit log: one JSON record per line for every successful link. */
module InvocationLog {
  import opened Wrappers
  import opened CommandLine
  import opened Json
  import opened Sequences

  datatype Invocation = Invocation(
    processId: nat,
    workingDirectory: string,
    engine: string,
    native: bool,
    reason: string,
    output: Option<string>,
    arguments: seq<string>)

  /******* Writing *******/

  /** `append_json_string`. */
  method AppendJsonString(before: string, value: string) returns (encoded: string)
    ensures encoded == before + Quoted(value)
  {
    hide Escape, EscapeChar;
    encoded := before + "\"";
    ghost var open := encoded;
    EscapeNothing();
    for i := 0 to |value|
      invariant encoded == open + Escape(value[..i])
    {
      var character := value[i];
      EscapeAppend(value[..i], character);
      assert value[..i + 1] == value[..i] + [character];
      Regroup(open, Escape(value[..i]), EscapeChar(character));
      EscapeIs(character);
      if character == '"' {
        encoded := encoded + "\\\"";
      } else if character == '\\' {
        encoded := encoded + "\\\\";
      } else if character == '\U{08}' {
        encoded := encoded + "\\b";
      } else if character == '\U{0c}' {
        encoded := encoded + "\\f";
      } else if character == '\n' {
        encoded := encoded + "\\n";
      } else if character == '\r' {
        encoded := encoded + "\\r";
      } else if character == '\t' {
        encoded := encoded + "\\t";
      } else if character <= '\U{1f}' {
        var code := character as int;
        var high, low := [HEX[code / 16]], [HEX[code % 16]];
        Regroup(encoded, "\\u00", high);
        Regroup(encoded, "\\u00" + high, low);
        encoded := encoded + "\\u00";
        encoded := encoded + high;
        encoded := encoded + low;
      } else {
        encoded := encoded + [character];
      }
    }
    assert value[..|value|] == value;
    Regroup(before, "\"", Escape(value));
    Regroup(before, "\"" + Escape(value), "\"");
    encoded := encoded + "\"";
  }

  lemma {:induction false} EscapeNothing()
    ensures forall open: string :: open + Escape("") == open
  {
  }

  /** Quotes, backslashes and control characters are escaped, with the short form where there is one;
      every other character stands for itself. */
  lemma {:induction false} EscapeIs(c: char)
    ensures c == '"' ==> EscapeChar(c) == "\\\""
    ensures c == '\\' ==> EscapeChar(c) == "\\\\"
    ensures c == '\U{08}' ==> EscapeChar(c) == "\\b"
    ensures c == '\U{0c}' ==> EscapeChar(c) == "\\f"
    ensures c == '\n' ==> EscapeChar(c) == "\\n"
    ensures c == '\r' ==> EscapeChar(c) == "\\r"
    ensures c == '\t' ==> EscapeChar(c) == "\\t"
    ensures c in "\"\\\U{08}\U{0c}\n\r\t" || c > '\U{1f}'
            || EscapeChar(c) == "\\u00" + ["0123456789abcdef"[c as int / 16]] + ["0123456789abcdef"[c as int % 16]]
    ensures c <= '\U{1f}' || c == '"' || c == '\\' || EscapeChar(c) == [c]
  {
  }

  lemma {:induction false} EscapeAppend(value: string, c: char)
    ensures Escape(value + [c]) == Escape(value) + EscapeChar(c)
  {
    if value != "" {
      assert (value + [c])[1..] == value[1..] + [c];
      EscapeAppend(value[1..], c);
    }
  }

  /** The record as a JSON object. */
  function RecordJson(r: Invocation): Json {
    Obj([
      Member("schema", Num(1)),
      Member("status", Str("success")),
      Member("process_id", Num(r.processId)),
      Member("working_directory", Str(r.workingDirectory)),
      Member("engine", Str(r.engine)),
      Member("route_kind", Str(if r.native then "native" else "bridge")),
      Member("reason", Str(r.reason)),
      Member("output", OutputJson(r.output)),
      Member("arguments", Arr(Strings(r.arguments)))])
  }

  function OutputJson(output: Option<string>): Json {
    match output
    case Some(o) => Str(o)
    case None => Null
  }

  function Strings(texts: seq<string>): (r: seq<Json>)
    ensures |r| == |texts| && forall i :: 0 <= i < |r| ==> r[i] == Str(texts[i])
  {
    seq(|texts|, i requires 0 <= i < |texts| => Str(texts[i]))
  }

  function Lossy(args: seq<OsString>): (r: seq<string>)
    ensures |r| == |args| && forall i :: 0 <= i < |r| ==> r[i] == args[i].ToStringLossy()
  {
    seq(|args|, i requires 0 <= i < |args| => args[i].ToStringLossy())
  }

  /** What a link leaves in the log; the program name is not among its arguments. */
  function RecordOf(argv: seq<OsString>, engine: string, native: bool, reason: string, workingDirectory: OsString,
                    output: Option<string>, processId: nat): Invocation {
    Invocation(processId, workingDirectory.ToStringLossy(), engine, native, reason, output,
               Lossy(if argv == [] then [] else argv[1..]))
  }

  /** Every argument but the program is recorded, in order and by its lossy rendering. */
  lemma {:induction false} RecordHasEveryArgument(
    argv: seq<OsString>, engine: string, native: bool, reason: string, workingDirectory: OsString,
    output: Option<string>, processId: nat)
    ensures var r := RecordOf(argv, engine, native, reason, workingDirectory, output, processId);
            && |r.arguments| == (if |argv| == 0 then 0 else |argv| - 1)
            && (forall i :: 1 <= i < |argv| ==> r.arguments[i - 1] == argv[i].ToStringLossy())
            && r.workingDirectory == workingDirectory.ToStringLossy()
            && r.processId == processId && r.engine == engine && r.native == native && r.reason == reason
            && r.output == output
  {
  }

  function Line(r: Invocation): string {
    Print(RecordJson(r)) + "\n"
  }

  predicate Plain(text: string) {
    forall i :: 0 <= i < |text| ==> text[i] >= ' ' && text[i] != '"' && text[i] != '\\'
  }

  lemma {:induction false} QuotedPlain(text: string)
    requires Plain(text)
    ensures Escape(text) == text && Quoted(text) == "\"" + text + "\""
  {
    if text != "" {
      QuotedPlain(text[1..]);
      assert text == [text[0]] + text[1..];
      assert EscapeChar(text[0]) == [text[0]];
    }
  }

  /** The text of a further member of an object. */
  lemma {:induction false} MemberAppend(members: seq<Member>, m: Member)
    ensures PrintMembers(members + [m]) == PrintMembers(members) + (if members == [] then "" else ",") + PrintMember(m)
  {
    hide PrintMember;
    if members == [] {
      assert members + [m] == [m];
    } else {
      assert (members + [m])[1..] == members[1..] + [m];
      MemberAppend(members[1..], m);
    }
  }

  lemma {:induction false} ItemAppend(items: seq<Json>, item: Json)
    ensures PrintItems(items + [item]) == PrintItems(items) + (if items == [] then "" else ",") + Print(item)
  {
    hide Print;
    if items == [] {
      assert items + [item] == [item];
    } else {
      assert (items + [item])[1..] == items[1..] + [item];
      ItemAppend(items[1..], item);
    }
  }

  /** Writing `,"key":` and a value adds a member to an unfinished object. */
  lemma {:induction false} FieldAppend(before: string, members: seq<Member>, key: string, value: Json, text: string)
    requires before == "{" + PrintMembers(members) && members != [] && Plain(key)
    requires text == ",\"" + key + "\":"
    ensures before + text + Print(value) == "{" + PrintMembers(members + [Member(key, value)])
  {
    hide Print, PrintMembers, Quoted, Plain;
    MemberAppend(members, Member(key, value));
    QuotedPlain(key);
    Pieces(PrintMembers(members), key, Print(value));
  }

  lemma {:induction false} Pieces(members: string, key: string, value: string)
    ensures "{" + members + (",\"" + key + "\":") + value
            == "{" + (members + "," + (("\"" + key + "\"") + ":" + value))
  {
    var quoted := "\"" + key + "\"";
    assert ",\"" + key + "\":" == "," + (quoted + ":");
    Regroup("{" + members, "," + (quoted + ":"), value);
    Regroup(",", quoted + ":", value);
    Regroup("{", members, "," + (quoted + ":" + value));
    Regroup(members, ",", quoted + ":" + value);
  }

  lemma {:induction false} FirstFields(r: Invocation)
    ensures Open(r, 2) == "{\"schema\":1,\"status\":\"success\""
  {
    hide Escape, Quoted, Print, PrintMember, Decimal;
    var ms := RecordJson(r).members[..2];
    assert ms == [Member("schema", Num(1)), Member("status", Str("success"))];
    TwoMembers(ms);
    FirstField();
    SecondField();
    FirstText();
  }

  lemma {:induction false} FirstText()
    ensures "{\"schema\":1,\"status\":\"success\"" == "{" + ("\"schema\":1" + "," + "\"status\":\"success\"")
  {
  }

  lemma {:induction false} TwoMembers(ms: seq<Member>)
    requires |ms| == 2
    ensures PrintMembers(ms) == PrintMember(ms[0]) + "," + PrintMember(ms[1])
  {
    hide PrintMember;
    assert ms[1..] == [ms[1]];
  }

  lemma {:induction false} FirstField()
    ensures PrintMember(Member("schema", Num(1))) == "\"schema\":1"
  {
    hide Escape, Quoted, Print, Decimal;
    assert Plain("schema");
    hide Plain;
    QuotedPlain("schema");
    PrintsAs(Num(1));
    One();
    assert "\"schema\":1" == "\"" + "schema" + "\"" + ":" + "1";
  }

  lemma {:induction false} One()
    ensures Decimal(1) == "1"
  {
  }

  lemma {:induction false} SecondField()
    ensures PrintMember(Member("status", Str("success"))) == "\"status\":\"success\""
  {
    hide Escape, Quoted, Print;
    assert Plain("status");
    assert Plain("success");
    hide Plain;
    QuotedPlain("status");
    QuotedPlain("success");
    PrintsAs(Str("success"));
    assert "\"status\":\"success\"" == "\"" + "status" + "\"" + ":" + ("\"" + "success" + "\"");
  }

  /** The text written before the value of member `k`. */
  function Lead(k: nat): string {
    if k == 2 then ",\"process_id\":"
    else if k == 3 then ",\"working_directory\":"
    else if k == 4 then ",\"engine\":"
    else if k == 5 then ",\"route_kind\":"
    else if k == 6 then ",\"reason\":"
    else if k == 7 then ",\"output\":"
    else ",\"arguments\":"
  }

  lemma {:induction false} LeadIs(r: Invocation, k: nat)
    requires 2 <= k < 9
    ensures var key := RecordJson(r).members[k].key; Plain(key) && Lead(k) == ",\"" + key + "\":"
  {
    hide RecordJson;
    RecordKey(r, k);
    LeadOf(k);
  }

  function Key(k: nat): string {
    if k == 2 then "process_id"
    else if k == 3 then "working_directory"
    else if k == 4 then "engine"
    else if k == 5 then "route_kind"
    else if k == 6 then "reason"
    else if k == 7 then "output"
    else "arguments"
  }

  lemma {:induction false} RecordKey(r: Invocation, k: nat)
    requires 2 <= k < 9
    ensures RecordJson(r).members[k].key == Key(k)
  {
  }

  lemma {:induction false} LeadOf(k: nat)
    requires 2 <= k < 9
    ensures Plain(Key(k)) && Lead(k) == ",\"" + Key(k) + "\":"
  {
    LeadOfLow();
    LeadOfHigh();
    LeadOfLast();
  }

  lemma {:induction false} LeadOfLow()
    ensures Plain("process_id") && ",\"process_id\":" == ",\"" + "process_id" + "\":"
    ensures Plain("working_directory") && ",\"working_directory\":" == ",\"" + "working_directory" + "\":"
  {
  }

  lemma {:induction false} LeadOfHigh()
    ensures Plain("engine") && ",\"engine\":" == ",\"" + "engine" + "\":"
    ensures Plain("route_kind") && ",\"route_kind\":" == ",\"" + "route_kind" + "\":"
    ensures Plain("reason") && ",\"reason\":" == ",\"" + "reason" + "\":"
  {
  }

  lemma {:induction false} LeadOfLast()
    ensures Plain("output") && ",\"output\":" == ",\"" + "output" + "\":"
    ensures Plain("arguments") && ",\"arguments\":" == ",\"" + "arguments" + "\":"
  {
  }

  /** The record up to member `k`, without its closing brace. */
  function Open(r: Invocation, k: nat): string
    requires k <= 9
  {
    "{" + PrintMembers(RecordJson(r).members[..k])
  }

  lemma {:induction false} NextField(r: Invocation, k: nat)
    requires 2 <= k < 9
    ensures Open(r, k) + Lead(k) + Print(RecordJson(r).members[k].value) == Open(r, k + 1)
  {
    LeadIs(r, k);
    hide Plain, Lead, RecordJson, PrintMembers, Print;
    var ms := RecordJson(r).members;
    assert ms[..k + 1] == ms[..k] + [Member(ms[k].key, ms[k].value)];
    FieldAppend(Open(r, k), ms[..k], ms[k].key, ms[k].value, Lead(k));
  }

  lemma {:induction false} PrintsAs(j: Json)
    ensures j.Str? ==> Print(j) == Quoted(j.text)
    ensures j.Num? ==> Print(j) == Decimal(j.value)
    ensures j.Null? ==> Print(j) == "null"
    ensures j.Arr? ==> Print(j) == "[" + PrintItems(j.items) + "]"
    ensures j.Obj? ==> Print(j) == "{" + PrintMembers(j.members) + "}"
  {
  }

  /** `encode_invocation_record`. */
  method EncodeInvocationRecord(argv: seq<OsString>, engine: string, native: bool, reason: string,
                                workingDirectory: OsString, output: Option<string>, processId: nat)
    returns (encoded: string)
    ensures encoded == Line(RecordOf(argv, engine, native, reason, workingDirectory, output, processId))
  {
    hide Print, PrintMembers, PrintItems, Decimal, Quoted, Escape, Plain, Open, RecordJson;
    ghost var r := RecordOf(argv, engine, native, reason, workingDirectory, output, processId);
    FirstFields(r);
    RecordValues(r);
    encoded := "{\"schema\":1,\"status\":\"success\",\"process_id\":";
    FirstLead();
    encoded := encoded + Decimal(processId);
    NextField(r, 2);
    encoded := encoded + ",\"working_directory\":";
    encoded := AppendJsonString(encoded, workingDirectory.ToStringLossy());
    NextField(r, 3);
    encoded := encoded + ",\"engine\":";
    encoded := AppendJsonString(encoded, engine);
    NextField(r, 4);
    encoded := encoded + ",\"route_kind\":";
    encoded := AppendJsonString(encoded, if native then "native" else "bridge");
    NextField(r, 5);
    encoded := encoded + ",\"reason\":";
    encoded := AppendJsonString(encoded, reason);
    NextField(r, 6);
    encoded := encoded + ",\"output\":";
    if output.Some? {
      encoded := AppendJsonString(encoded, output.value);
    } else {
      encoded := encoded + "null";
    }
    NextField(r, 7);
    ghost var before := encoded;
    assert before == Open(r, 8);
    encoded := encoded + ",\"arguments\":[";
    ghost var open := encoded;
    encoded := AppendArguments(encoded, if argv == [] then [] else argv[1..]);
    encoded := encoded + "]}\n";
    Finish(before, open, PrintItems(Strings(r.arguments)), encoded);
    NextField(r, 8);
    LineIs(r);
  }

  lemma {:induction false} FirstLead()
    ensures "{\"schema\":1,\"status\":\"success\",\"process_id\":" == "{\"schema\":1,\"status\":\"success\"" + Lead(2)
  {
  }

  /** The loop over the arguments. */
  method AppendArguments(open: string, arguments: seq<OsString>) returns (encoded: string)
    ensures encoded == open + PrintItems(Strings(Lossy(arguments)))
  {
    hide Print, PrintItems, Quoted, Escape;
    encoded := open;
    ghost var items := Strings(Lossy(arguments));
    NoItems();
    for i := 0 to |arguments|
      invariant encoded == open + PrintItems(items[..i])
    {
      ItemAppend(items[..i], items[i]);
      PrintsAs(items[i]);
      assert items[..i + 1] == items[..i] + [items[i]];
      ghost var comma := if i == 0 then "" else ",";
      Regroup(open, PrintItems(items[..i]), comma);
      Regroup(open, PrintItems(items[..i]) + comma, Quoted(arguments[i].ToStringLossy()));
      if i != 0 {
        encoded := encoded + ",";
      }
      encoded := AppendJsonString(encoded, arguments[i].ToStringLossy());
    }
    assert items[..|items|] == items;
  }

  lemma {:induction false} RecordValues(r: Invocation)
    ensures var ms := RecordJson(r).members;
            && Print(ms[2].value) == Decimal(r.processId)
            && Print(ms[3].value) == Quoted(r.workingDirectory)
            && Print(ms[4].value) == Quoted(r.engine)
            && Print(ms[5].value) == Quoted(if r.native then "native" else "bridge")
            && Print(ms[6].value) == Quoted(r.reason)
            && Print(ms[7].value) == (if r.output.Some? then Quoted(r.output.value) else "null")
            && Print(ms[8].value) == "[" + PrintItems(Strings(r.arguments)) + "]"
  {
    hide Quoted, Decimal, PrintItems;
  }

  lemma {:induction false} LineIs(r: Invocation)
    ensures Line(r) == Open(r, 9) + "}" + "\n"
  {
    var ms := RecordJson(r).members;
    assert ms[..9] == ms;
    hide RecordJson, PrintMembers;
  }

  lemma {:induction false} NoItems()
    ensures PrintItems([]) == ""
  {
  }

  lemma {:induction false} Finish(before: string, open: string, items: string, encoded: string)
    requires open == before + ",\"arguments\":["
    requires encoded == open + items + "]}\n"
    ensures encoded == (before + ",\"arguments\":" + ("[" + items + "]")) + "}" + "\n"
  {
    assert ",\"arguments\":[" == ",\"arguments\":" + "[";
    assert "]}\n" == "]" + "}" + "\n";
  }

  /******* Reading *******/

  function Lookup(members: seq<Member>, key: string): Option<Json> {
    if members == [] then None
    else if members[0].key == key then Some(members[0].value)
    else Lookup(members[1..], key)
  }

  function TextOf(value: Option<Json>): Option<string> {
    match value
    case Some(Str(text)) => Some(text)
    case _ => None
  }

  /** A string, or null for no string. */
  function OptionalTextOf(value: Option<Json>): Option<Option<string>> {
    match value
    case Some(Str(text)) => Some(Some(text))
    case Some(Null) => Some(None)
    case _ => None
  }

  function TextsOf(items: seq<Json>): Option<seq<string>> {
    if items == [] then Some([])
    else
      match (items[0], TextsOf(items[1..]))
      case (Str(text), Some(more)) => Some([text] + more)
      case _ => None
  }

  function NumberOf(value: Option<Json>): Option<nat> {
    match value
    case Some(Num(n)) => Some(n)
    case _ => None
  }

  function ArgumentsOf(value: Option<Json>): Option<seq<string>> {
    match value
    case Some(Arr(items)) => TextsOf(items)
    case _ => None
  }

  function KindOf(value: Option<Json>): Option<bool> {
    match TextOf(value)
    case Some(kind) => if kind == "native" then Some(true) else if kind == "bridge" then Some(false) else None
    case None => None
  }

  /** Schema 1, success. */
  predicate IsSuccessRecord(ms: seq<Member>) {
    Lookup(ms, "schema") == Some(Num(1)) && Lookup(ms, "status") == Some(Str("success"))
  }

  function FromMembers(ms: seq<Member>): Option<Invocation> {
    if !IsSuccessRecord(ms) then None else FieldsOf(ms)
  }

  function FieldsOf(ms: seq<Member>): Option<Invocation> {
    match (NumberOf(Lookup(ms, "process_id")), TextOf(Lookup(ms, "working_directory")), TextOf(Lookup(ms, "engine")),
           KindOf(Lookup(ms, "route_kind")), TextOf(Lookup(ms, "reason")), OptionalTextOf(Lookup(ms, "output")),
           ArgumentsOf(Lookup(ms, "arguments")))
    case (Some(pid), Some(dir), Some(engine), Some(native), Some(reason), Some(output), Some(arguments)) =>
      Some(Invocation(pid, dir, engine, native, reason, output, arguments))
    case _ => None
  }

  /** What a reader that knows JSON and the member names gets from one line of the log. */
  function DecodeRecord(line: string): Option<Invocation> {
    match ReadValue(line)
    case Some(Parsed(Obj(members), rest)) => if SkipSpace(rest) == "" then FromMembers(members) else None
    case _ => None
  }

  lemma {:induction false} LookupAt(members: seq<Member>, k: nat)
    requires k < |members|
    requires forall i :: 0 <= i < k ==> members[i].key != members[k].key
    ensures Lookup(members, members[k].key) == Some(members[k].value)
  {
    if k > 0 {
      assert members[0].key != members[k].key;
      LookupAt(members[1..], k - 1);
    }
  }

  /** The keys of a record. */
  const KEYS: seq<string> := [
    "schema", "status", "process_id", "working_directory", "engine", "route_kind", "reason", "output", "arguments"]

  lemma {:induction false} KeysDiffer(i: nat, k: nat)
    requires i < k < 9
    ensures KEYS[i] != KEYS[k]
  {
    var first := ['s', 's', 'p', 'w', 'e', 'r', 'r', 'o', 'a'];
    assert forall j :: 0 <= j < 9 ==> KEYS[j] != "" && KEYS[j][0] == first[j];
    assert |KEYS[0]| == 6 && KEYS[0][1] == 'c' && KEYS[1][1] == 't';
    assert KEYS[5][1] == 'o' && KEYS[6][1] == 'e';
  }

  lemma {:induction false} RecordKeys(r: Invocation)
    ensures RecordJson(r).Obj? && |RecordJson(r).members| == 9
    ensures forall k :: 0 <= k < 9 ==> RecordJson(r).members[k].key == KEYS[k]
  {
  }

  lemma {:induction false} RecordLookup(r: Invocation, k: nat)
    requires k < 9
    ensures Lookup(RecordJson(r).members, KEYS[k]) == Some(RecordJson(r).members[k].value)
  {
    hide Lookup, RecordJson;
    RecordKeys(r);
    forall i | 0 <= i < k ensures KEYS[i] != KEYS[k] {
      KeysDiffer(i, k);
    }
    LookupAt(RecordJson(r).members, k);
  }

  lemma {:induction false} TextsRoundTrip(texts: seq<string>)
    ensures TextsOf(Strings(texts)) == Some(texts)
  {
    if texts != [] {
      assert Strings(texts)[1..] == Strings(texts[1..]);
      TextsRoundTrip(texts[1..]);
      assert texts == [texts[0]] + texts[1..];
    }
  }

  lemma {:induction false} MembersRoundTrip(r: Invocation)
    ensures FromMembers(RecordJson(r).members) == Some(r)
  {
    hide Lookup, TextsOf;
    RecordLookup(r, 0);
    RecordLookup(r, 1);
    RecordLookup(r, 2);
    RecordLookup(r, 3);
    RecordLookup(r, 4);
    RecordLookup(r, 5);
    RecordLookup(r, 6);
    RecordLookup(r, 7);
    RecordLookup(r, 8);
    TextsRoundTrip(r.arguments);
  }

  /** The line that records an invocation gives it back, for all strings in it. */
  lemma {:induction false} RecordRoundTrip(r: Invocation)
    ensures DecodeRecord(Print(RecordJson(r))) == Some(r)
  {
    hide ReadValue, Print, FromMembers;
    assert Print(RecordJson(r)) + "" == Print(RecordJson(r));
    ValueRoundTrip(RecordJson(r), "");
    MembersRoundTrip(r);
  }

  /** Each record has one newline, its last character. */
  lemma {:induction false} OneNewline(r: Invocation)
    ensures var line := Line(r);
            line != "" && line[|line| - 1] == '\n' && '\n' !in line[..|line| - 1]
  {
    hide Print, RecordJson;
    PrintHasNoNewline(RecordJson(r));
    assert Line(r)[..|Line(r)| - 1] == Print(RecordJson(r));
  }

  /** The lines of a text, without their newlines. */
  function Lines(text: string): seq<string> {
    if text == "" then []
    else
      var n := LineLength(text);
      [text[..n]] + Lines(text[if n < |text| then n + 1 else n..])
  }

  function LineLength(text: string): (n: nat)
    ensures n <= |text| && (n == 0 ==> text == "" || text[0] == '\n')
  {
    if text == "" || text[0] == '\n' then 0 else 1 + LineLength(text[1..])
  }

  lemma {:induction false} LineLengthIs(line: string, rest: string)
    requires '\n' !in line
    ensures LineLength(line + "\n" + rest) == |line|
  {
    var text := line + "\n" + rest;
    if line != "" {
      assert text[1..] == line[1..] + "\n" + rest;
      LineLengthIs(line[1..], rest);
    } else {
      assert text == "\n" + rest;
    }
  }

  /** The whole log of some invocations. */
  function Log(records: seq<Invocation>): string {
    if records == [] then "" else Line(records[0]) + Log(records[1..])
  }

  /** A log splits back into the records it was made of. */
  lemma {:induction false} LogRoundTrip(records: seq<Invocation>)
    ensures var lines := Lines(Log(records));
            && |lines| == |records|
            && forall i :: 0 <= i < |records| ==> DecodeRecord(lines[i]) == Some(records[i])
  {
    if records != [] {
      hide Print, RecordJson, DecodeRecord, LineLength;
      var first, rest := Print(RecordJson(records[0])), Log(records[1..]);
      RecordRoundTrip(records[0]);
      PrintHasNoNewline(RecordJson(records[0]));
      LineLengthIs(first, rest);
      assert Log(records) == first + "\n" + rest;
      assert Log(records)[..|first|] == first;
      assert Log(records)[|first| + 1..] == rest;
      LogRoundTrip(records[1..]);
    }
  }
}
