/** The size check on an import preview (`backend/application/import_service.py`) against the frame that
    later carries it (`backend/rpc/framing.py`, `backend/__main__.py`): JSON text, its UTF-8 length, and why
    the budget suffices. */
module PlanBudget {

  datatype Json =
    | Null
    | True
    | False
    | Number(text: string)
    | Text(value: string)
    | List(items: seq<Json>)
    | Object(members: seq<Member>)

  datatype Member = Member(key: string, value: Json)

  // ---------------------------------------------------------------- the encoder

  const HEX := "0123456789abcdef"

  /** One character inside a JSON string, with `ensure_ascii=False`. */
  function Escape(c: char): string {
    if c == '"' then "\\\"" else if c == '\\' then "\\\\"
    else if c == '\n' then "\\n" else if c == '\r' then "\\r" else if c == '\t' then "\\t"
    else if c == 8 as char then "\\b" else if c == 12 as char then "\\f"
    else if c < ' ' then "\\u00" + [HEX[c as int / 16], HEX[c as int % 16]]
    else [c]
  }

  function EscapeAll(s: string): string {
    if s == "" then "" else EscapeAll(s[..|s| - 1]) + Escape(s[|s| - 1])
  }

  function Quote(s: string): string {
    "\"" + EscapeAll(s) + "\""
  }

  function Dumps(json: Json): string
    decreases json, 0
  {
    match json
    case Null => "null"
    case True => "true"
    case False => "false"
    case Number(text) => text
    case Text(value) => Quote(value)
    case List(items) => "[" + DumpsItems(items) + "]"
    case Object(members) => "{" + DumpsMembers(members) + "}"
  }

  function DumpsItems(items: seq<Json>): string
    decreases items, 1
  {
    if items == [] then ""
    else
      var last := items[|items| - 1];
      DumpsItems(items[..|items| - 1]) + (if |items| == 1 then "" else ",") + Dumps(last)
  }

  function DumpsMembers(members: seq<Member>): string
    decreases members, 1
  {
    if members == [] then ""
    else
      var last := members[|members| - 1];
      DumpsMembers(members[..|members| - 1]) + (if |members| == 1 then "" else ",") + DumpsMember(last)
  }

  function DumpsMember(member: Member): string
    decreases member, 0
  {
    Quote(member.key) + ":" + Dumps(member.value)
  }

  /** Bytes of one character, and of a text, in UTF-8. */
  function Width(c: char): nat {
    if c as int < 0x80 then 1 else if c as int < 0x800 then 2 else if c as int < 0x1_0000 then 3 else 4
  }

  function Bytes(s: string): nat {
    if s == "" then 0 else Bytes(s[..|s| - 1]) + Width(s[|s| - 1])
  }

  function Digits(n: nat): string {
    if n < 10 then [HEX[n]] else Digits(n / 10) + [HEX[n % 10]]
  }

  // ---------------------------------------------------------------- sizes

  lemma {:induction false} BytesConcat(a: string, b: string)
    ensures Bytes(a + b) == Bytes(a) + Bytes(b)
  {
    if b == "" {
      assert a + b == a;
    } else {
      assert (a + b)[..|a + b| - 1] == a + b[..|b| - 1];
      BytesConcat(a, b[..|b| - 1]);
    }
  }

  ghost predicate Ascii(s: string) {
    forall i :: 0 <= i < |s| ==> s[i] as int < 0x80
  }

  /** ASCII that JSON leaves alone. */
  ghost predicate Plain(s: string) {
    forall i :: 0 <= i < |s| ==> ' ' <= s[i] && s[i] as int < 0x80 && s[i] != '"' && s[i] != '\\'
  }

  lemma {:induction false} AsciiBytes(s: string)
    requires Ascii(s)
    ensures Bytes(s) == |s|
  {
    if s != "" { AsciiBytes(s[..|s| - 1]); }
  }

  lemma {:induction false} PlainEscape(s: string)
    requires Plain(s)
    ensures EscapeAll(s) == s
  {
    if s != "" {
      PlainEscape(s[..|s| - 1]);
      EscapePlain(s[|s| - 1]);
      assert s == s[..|s| - 1] + [s[|s| - 1]];
    }
  }

  lemma EscapePlain(c: char)
    ensures ' ' <= c && c != '"' && c != '\\' ==>
              Escape(c) == [c]
  {
  }

  /** Escaping never costs more than six bytes a character, and a control character does cost six. */
  lemma {:induction false} EscapeBytes(s: string)
    ensures Bytes(EscapeAll(s)) <= 6 * |s|
    ensures (forall i :: 0 <= i < |s| ==> s[i] == 1 as char) ==> Bytes(EscapeAll(s)) == 6 * |s|
  {
    if s != "" {
      EscapeBytes(s[..|s| - 1]);
      BytesConcat(EscapeAll(s[..|s| - 1]), Escape(s[|s| - 1]));
      EscapeWidth(s[|s| - 1]);
    }
  }

  lemma {:induction false} EscapeWidth(c: char)
    ensures Bytes(Escape(c)) <= 6
    ensures c == 1 as char ==> Bytes(Escape(c)) == 6
  {
    if Ascii(Escape(c)) {
      AsciiBytes(Escape(c));
    } else {
      assert Escape(c) == [c];
      assert Bytes([c][..0]) == 0;
    }
  }

  lemma {:induction false} QuoteBytes(s: string)
    ensures Bytes(Quote(s)) == Bytes(EscapeAll(s)) + 2
    ensures Plain(s) ==> Bytes(Quote(s)) == |s| + 2
  {
    BytesConcat("\"" + EscapeAll(s), "\"");
    BytesConcat("\"", EscapeAll(s));
    AsciiBytes("\"");
    if Plain(s) {
      PlainEscape(s);
      AsciiBytes(s);
    }
  }

  /** `Size` counts what `Dumps` writes, without writing it. */
  function Size(json: Json): nat
    decreases json, 0
  {
    match json
    case Null => 4
    case True => 4
    case False => 5
    case Number(text) => Bytes(text)
    case Text(value) => Bytes(EscapeAll(value)) + 2
    case List(items) => ItemsSize(items) + 2
    case Object(members) => MembersSize(members) + 2
  }

  function ItemsSize(items: seq<Json>): nat
    decreases items, 1
  {
    if items == [] then 0
    else ItemsSize(items[..|items| - 1]) + (if |items| == 1 then 0 else 1) + Size(items[|items| - 1])
  }

  function MembersSize(members: seq<Member>): nat
    decreases members, 1
  {
    if members == [] then 0
    else MembersSize(members[..|members| - 1]) + (if |members| == 1 then 0 else 1) + MemberSize(members[|members| - 1])
  }

  function MemberSize(member: Member): nat
    decreases member, 0
  {
    Bytes(EscapeAll(member.key)) + 3 + Size(member.value)
  }

  lemma {:induction false} SizeIsBytes(json: Json)
    ensures Size(json) == Bytes(Dumps(json))
    decreases json, 0
  {
    match json
    case Null => AsciiBytes("null");
    case True => AsciiBytes("true");
    case False => AsciiBytes("false");
    case Number(text) =>
    case Text(value) => QuoteBytes(value);
    case List(items) =>
      ItemsSizeIsBytes(items);
      Enclosed("[", DumpsItems(items), "]");
    case Object(members) =>
      MembersSizeIsBytes(members);
      Enclosed("{", DumpsMembers(members), "}");
  }

  lemma {:induction false} Enclosed(before: string, s: string, after: string)
    requires |before| == |after| == 1 && Ascii(before) && Ascii(after)
    ensures Bytes(before + s + after) == Bytes(s) + 2
  {
    BytesConcat(before + s, after);
    BytesConcat(before, s);
    AsciiBytes(before);
    AsciiBytes(after);
  }

  lemma {:induction false} Appended(head: string, comma: bool, last: string)
    ensures Bytes(head + (if comma then "" else ",") + last) == Bytes(head) + (if comma then 0 else 1) + Bytes(last)
  {
    var separator := if comma then "" else ",";
    BytesConcat(head + separator, last);
    BytesConcat(head, separator);
    AsciiBytes(separator);
  }

  lemma {:induction false} ItemsSizeIsBytes(items: seq<Json>)
    ensures ItemsSize(items) == Bytes(DumpsItems(items))
    decreases items, 1
  {
    if items != [] {
      var init, last := items[..|items| - 1], items[|items| - 1];
      ItemsSizeIsBytes(init);
      SizeIsBytes(last);
      Appended(DumpsItems(init), |items| == 1, Dumps(last));
    }
  }

  lemma {:induction false} MembersSizeIsBytes(members: seq<Member>)
    ensures MembersSize(members) == Bytes(DumpsMembers(members))
    decreases members, 1
  {
    if members != [] {
      var init, last := members[..|members| - 1], members[|members| - 1];
      MembersSizeIsBytes(init);
      SizeIsBytes(last.value);
      QuoteBytes(last.key);
      AsciiBytes(":");
      BytesConcat(Quote(last.key) + ":", Dumps(last.value));
      BytesConcat(Quote(last.key), ":");
      Appended(DumpsMembers(init), |members| == 1, DumpsMember(last));
    }
  }

  // ---------------------------------------------------------------- the plan and its frame

  const MAX_FRAME_BYTES: int := 4 * 1024 * 1024
  const ENVELOPE_BUDGET: int := 8192
  const TOKEN_PLACEHOLDER := "imp1." + Repeat('t', 64)
  const EXPIRY_PLACEHOLDER := "1.2345678901234567e+99"

  const PLACEHOLDER := Token(TOKEN_PLACEHOLDER, EXPIRY_PLACEHOLDER)

  function Repeat(c: char, n: nat): (s: string)
    ensures |s| == n && forall i :: 0 <= i < n ==> s[i] == c
  {
    seq(n, _ => c)
  }

  /** A preview token: its text, and its expiry as Python renders the float. */
  datatype Token = Token(token: string, expiresAt: string)

  /** A plan is its members up to `token`, the last one. */
  function Plan(body: seq<Member>, token: Token): Json {
    Object(body + [Member("token", TokenJson(token))])
  }

  function TokenJson(token: Token): Json {
    Object([Member("token", Text(token.token)),
            Member("expiresAt", Number(token.expiresAt)), Member("consumed", False)])
  }

  /** `_reject_undeliverable_plan` lets the plan through. */
  predicate Deliverable(body: seq<Member>) {
    Bytes(Dumps(Plan(body, PLACEHOLDER))) <= MAX_FRAME_BYTES - ENVELOPE_BUDGET
  }

  datatype Status = Status(taskId: string, kind: string, state: string, done: nat, total: nat, message: string,
                           result: Json, error: Option)
  datatype Option = None | Some(value: string)

  function Params(status: Status): Json {
    Report(Identity(status.taskId, status.kind, status.state),
           ProgressMembers(status.done, status.total, status.message),
           Ending(status.result, status.error))
  }

  function Report(identity: seq<Member>, progress: seq<Member>, ending: seq<Member>): Json {
    Object(identity + [Member("progress", Object(progress))] + ending)
  }

  function FrameJson(status: Status): Json {
    Notification("2.0", "task.executionReport", Params(status))
  }

  function Notification(version: string, name: string, params: Json): Json {
    Object([Member("jsonrpc", Text(version)), Member("method", Text(name)), Member("params", params)])
  }

  /** The line `notify` hands to `write_frame`. */
  function Frame(status: Status): string {
    Dumps(FrameJson(status)) + "\n"
  }

  lemma {:induction false} PlainMember(key: string, value: Json)
    requires Plain(key)
    ensures MembersSize([Member(key, value)]) == |key| + 3 + Size(value)
  {
    PlainEscape(key);
    AsciiBytes(key);
    assert [Member(key, value)][..0] == [];
  }

  lemma {:induction false} MembersConcat(a: seq<Member>, b: seq<Member>)
    requires a != [] && b != []
    ensures MembersSize(a + b) == MembersSize(a) + 1 + MembersSize(b)
  {
    var init := b[..|b| - 1];
    assert (a + b)[..|a + b| - 1] == a + init;
    if init != [] {
      MembersConcat(a, init);
    } else {
      assert a + init == a;
    }
  }

  lemma {:induction false} ThreeMembers(a: Member, b: Member, c: Member)
    requires Plain(a.key) && Plain(b.key) && Plain(c.key)
    ensures MembersSize([a, b, c])
         == |a.key| + |b.key| + |c.key| + Size(a.value) + Size(b.value) + Size(c.value) + 11
  {
    PlainMember(a.key, a.value);
    PlainMember(b.key, b.value);
    PlainMember(c.key, c.value);
    MembersConcat([a], [b]);
    MembersConcat([a] + [b], [c]);
    assert [a] + [b] + [c] == [a, b, c];
  }

  lemma {:induction false} Surrounded(before: seq<Member>, member: Member, after: seq<Member>)
    requires before != [] && after != [] && Plain(member.key)
    ensures MembersSize(before + [member] + after)
         == MembersSize(before) + |member.key| + Size(member.value) + MembersSize(after) + 5
  {
    PlainMember(member.key, member.value);
    MembersConcat(before, [member]);
    MembersConcat(before + [member], after);
  }

  lemma {:induction false} DigitsAscii(n: nat)
    ensures Bytes(Digits(n)) == |Digits(n)|
  {
    if n >= 10 {
      DigitsAscii(n / 10);
      AsciiBytes([HEX[n % 10]]);
      BytesConcat(Digits(n / 10), [HEX[n % 10]]);
    } else {
      AsciiBytes([HEX[n]]);
    }
  }

  function ProgressMembers(done: nat, total: nat, message: string): seq<Member> {
    [Member("done", Number(Digits(done))), Member("total", Number(Digits(total))), Member("message", Text(message))]
  }

  function Identity(taskId: string, kind: string, state: string): seq<Member> {
    [Member("taskId", Text(taskId)), Member("kind", Text(kind)), Member("state", Text(state))]
  }

  function Ending(result: Json, error: Option): seq<Member> {
    [Member("result", result), Member("error", ErrorJson(error)), Member("commitReceipt", Null)]
  }

  function ErrorJson(error: Option): Json {
    if error.None? then Null else Text(error.value)
  }

  lemma {:induction false} CountsSize(a: string, x: nat, b: string, y: nat, c: string, text: string)
    requires Plain(a) && Plain(b) && Plain(c)
    ensures MembersSize([Member(a, Number(Digits(x))), Member(b, Number(Digits(y))), Member(c, Text(text))])
         == |a| + |b| + |c| + |Digits(x)| + |Digits(y)| + Bytes(EscapeAll(text)) + 13
  {
    DigitsAscii(x);
    DigitsAscii(y);
    ThreeMembers(Member(a, Number(Digits(x))), Member(b, Number(Digits(y))), Member(c, Text(text)));
  }

  lemma {:induction false} ProgressSize(done: nat, total: nat, message: string)
    ensures MembersSize(ProgressMembers(done, total, message))
         == |Digits(done)| + |Digits(total)| + Bytes(EscapeAll(message)) + 29
  {
    CountsSize("done", done, "total", total, "message", message);
  }

  lemma {:induction false} TextsSize(a: string, x: string, b: string, y: string, c: string, z: string)
    requires Plain(a) && Plain(b) && Plain(c)
    ensures MembersSize([Member(a, Text(x)), Member(b, Text(y)), Member(c, Text(z))])
         == |a| + |b| + |c| + Bytes(EscapeAll(x)) + Bytes(EscapeAll(y)) + Bytes(EscapeAll(z)) + 17
  {
    ThreeMembers(Member(a, Text(x)), Member(b, Text(y)), Member(c, Text(z)));
  }

  lemma {:induction false} IdentitySize(taskId: string, kind: string, state: string)
    ensures MembersSize(Identity(taskId, kind, state))
         == Bytes(EscapeAll(taskId)) + Bytes(EscapeAll(kind)) + Bytes(EscapeAll(state)) + 32
  {
    TextsSize("taskId", taskId, "kind", kind, "state", state);
  }

  lemma {:induction false} EndingSize(result: Json, error: Option)
    ensures MembersSize(Ending(result, error)) == Size(result) + Size(ErrorJson(error)) + 39
  {
    ThreeMembers(Member("result", result), Member("error", ErrorJson(error)), Member("commitReceipt", Null));
  }

  /** What the report spends around its result. */
  function Envelope(status: Status): nat {
    177 + Bytes(EscapeAll(status.taskId)) + Bytes(EscapeAll(status.kind)) + Bytes(EscapeAll(status.state))
    + |Digits(status.done)| + |Digits(status.total)| + Bytes(EscapeAll(status.message)) + Size(ErrorJson(status.error))
  }

  lemma {:induction false} ReportSize(identity: seq<Member>, progress: seq<Member>, ending: seq<Member>)
    requires identity != [] && ending != []
    ensures Size(Report(identity, progress, ending))
         == MembersSize(identity) + MembersSize(progress) + MembersSize(ending) + 17
  {
    Surrounded(identity, Member("progress", Object(progress)), ending);
  }

  lemma {:induction false} ParamsSize(status: Status)
    ensures Size(Params(status)) == Envelope(status) - 60 + Size(status.result)
  {
    IdentitySize(status.taskId, status.kind, status.state);
    ProgressSize(status.done, status.total, status.message);
    EndingSize(status.result, status.error);
    ReportSize(Identity(status.taskId, status.kind, status.state),
               ProgressMembers(status.done, status.total, status.message), Ending(status.result, status.error));
  }

  lemma {:induction false} NotificationSize(version: string, name: string, params: Json)
    requires Plain(version) && Plain(name)
    ensures Size(Notification(version, name, params)) == |version| + |name| + Size(params) + 36
  {
    ThreeMembers(Member("jsonrpc", Text(version)), Member("method", Text(name)), Member("params", params));
    QuoteBytes(version);
    QuoteBytes(name);
  }

  lemma {:induction false} FrameSize(status: Status)
    ensures Bytes(Frame(status)) == Envelope(status) + Size(status.result)
  {
    ParamsSize(status);
    FrameJsonSize(status);
    LineSize(FrameJson(status));
  }

  lemma {:induction false} FrameJsonSize(status: Status)
    ensures Size(FrameJson(status)) == Size(Params(status)) + 59
  {
    NotificationSize("2.0", "task.executionReport", Params(status));
  }

  lemma {:induction false} LineSize(json: Json)
    ensures Bytes(Dumps(json) + "\n") == Size(json) + 1
  {
    SizeIsBytes(json);
    AsciiBytes("\n");
    BytesConcat(Dumps(json), "\n");
  }

  lemma {:induction false} TokenSize(token: Token)
    ensures Size(TokenJson(token)) == Bytes(EscapeAll(token.token)) + Bytes(token.expiresAt) + 42
  {
    ThreeMembers(Member("token", Text(token.token)),
                 Member("expiresAt", Number(token.expiresAt)), Member("consumed", False));
  }

  /** The size of a plan around its token. */
  function BodySize(body: seq<Member>): nat {
    if body == [] then 10 else MembersSize(body) + 11
  }

  lemma {:induction false} PlanSize(body: seq<Member>, token: Token)
    ensures Size(Plan(body, token)) == BodySize(body) + Size(TokenJson(token))
  {
    var last := [Member("token", TokenJson(token))];
    PlainMember("token", TokenJson(token));
    if body == [] {
      assert body + last == last;
    } else {
      MembersConcat(body, last);
    }
  }

  lemma {:induction false} PlainTokenSize(token: Token)
    requires Plain(token.token) && Ascii(token.expiresAt)
    ensures Size(TokenJson(token)) == |token.token| + |token.expiresAt| + 42
  {
    TokenSize(token);
    PlainEscape(token.token);
    AsciiBytes(token.token);
    AsciiBytes(token.expiresAt);
  }

  lemma {:induction false} PlaceholderSize()
    ensures Size(TokenJson(PLACEHOLDER)) == 133
  {
    assert Plain(TOKEN_PLACEHOLDER);
    PlainTokenSize(PLACEHOLDER);
  }

  // ---------------------------------------------------------------- main results

  /** What delivery adds to the plan that was measured. It can be negative: the placeholders are long. */
  function Overhead(status: Status, token: Token): int {
    Envelope(status) + Size(TokenJson(token)) - Size(TokenJson(PLACEHOLDER))
  }

  ghost predicate Fits(status: Status) {
    Bytes(Frame(status)) <= MAX_FRAME_BYTES
  }

  /** The two limits in bytes: 4 MiB for a frame with its newline, and 8192 less for a plan with a token of 69 and an
      expiry of 22 characters. */
  lemma {:induction false} LimitsMean(body: seq<Member>, status: Status)
    ensures |PLACEHOLDER.token| == 69 && |PLACEHOLDER.expiresAt| == 22
    ensures Deliverable(body) <==> Size(Plan(body, PLACEHOLDER)) + 8192 <= 4194304
    ensures Fits(status) <==> Size(FrameJson(status)) + 1 <= 4194304
  {
    SizeIsBytes(Plan(body, PLACEHOLDER));
    LineSize(FrameJson(status));
  }

  /** Every plan that passes the check fits this report. */
  ghost predicate AlwaysFits(status: Status, token: Token) {
    forall body :: Deliverable(body) ==> Fits(status.(result := Plan(body, token)))
  }

  /** A plan that passes the check fits its frame, whatever the plan holds, exactly when the overhead stays
      within the budget. */
  lemma {:induction false} BudgetExactly(status: Status, token: Token)
    ensures AlwaysFits(status, token) <==> Overhead(status, token) <= ENVELOPE_BUDGET
  {
    forall body ensures Deliverable(body) <==> BodySize(body) + 133 <= MAX_FRAME_BYTES - ENVELOPE_BUDGET {
      SizeIsBytes(Plan(body, PLACEHOLDER));
      PlanSize(body, PLACEHOLDER);
      PlaceholderSize();
    }
    forall body
      ensures Fits(status.(result := Plan(body, token)))
         <==> BodySize(body) + 133 + Overhead(status, token) <= MAX_FRAME_BYTES
    {
      FrameSize(status.(result := Plan(body, token)));
      PlanSize(body, token);
      PlaceholderSize();
    }
    var largest := FullBody();
    assert Deliverable(largest);
  }

  /** The check is tight: some plan meets it with no byte to spare. */
  lemma {:induction false} FullBody() returns (body: seq<Member>)
    ensures BodySize(body) + 133 == MAX_FRAME_BYTES - ENVELOPE_BUDGET
  {
    var hash := Repeat('a', MAX_FRAME_BYTES - ENVELOPE_BUDGET - 133 - 26);
    body := [Member("sourceHash", Text(hash))];
    HashBody(hash);
  }

  lemma {:induction false} HashBody(hash: string)
    requires Plain(hash)
    ensures BodySize([Member("sourceHash", Text(hash))]) == |hash| + 26
  {
    PlainMember("sourceHash", Text(hash));
    QuoteBytes(hash);
  }

  /** The lengths the task contract allows (`backend/contracts/task.py`); a state is one of its short words. */
  ghost predicate WithinContract(status: Status) {
    && |status.taskId| <= 128 && |status.kind| <= 64 && |status.message| <= 512
    && Plain(status.state) && |status.state| <= 9
    && (status.error.Some? ==> |status.error.value| <= 1024)
  }

  /** The contract bounds no counter; their digits have to share this much of the budget with the state. */
  const COUNTER_BUDGET: int := 3787

  function CounterBytes(status: Status): nat {
    |Digits(status.done)| + |Digits(status.total)| + |status.state|
  }

  /** A minted token no longer than the placeholders. */
  ghost predicate Minted(token: Token) {
    && Plain(token.token) && |token.token| <= |PLACEHOLDER.token|
    && Ascii(token.expiresAt) && |token.expiresAt| <= |PLACEHOLDER.expiresAt|
  }

  lemma {:induction false} EnvelopeBound(status: Status)
    requires WithinContract(status)
    ensures status.error.None? ==> Envelope(status) <= CounterBytes(status) + 4405
    ensures Envelope(status) <= CounterBytes(status) + 10547
  {
    EscapeBytes(status.taskId);
    EscapeBytes(status.kind);
    EscapeBytes(status.message);
    PlainEscape(status.state);
    AsciiBytes(status.state);
    if status.error.Some? { EscapeBytes(status.error.value); }
  }

  /** The report that costs most with these counters: control characters throughout. */
  function Costliest(state: string, done: nat, total: nat): Status {
    Status(Repeat(1 as char, 128), Repeat(1 as char, 64), state, done, total, Repeat(1 as char, 512), Null, None)
  }

  lemma {:induction false} CostliestEnvelope(state: string, done: nat, total: nat)
    requires Plain(state)
    ensures Envelope(Costliest(state, done, total)) == CounterBytes(Costliest(state, done, total)) + 4405
  {
    EscapeBytes(Repeat(1 as char, 128));
    EscapeBytes(Repeat(1 as char, 64));
    EscapeBytes(Repeat(1 as char, 512));
    PlainEscape(state);
    AsciiBytes(state);
  }

  ghost predicate Counts(status: Status, state: string, done: nat, total: nat) {
    && WithinContract(status) && status.error.None?
    && status.state == state && status.done == done && status.total == total
  }

  /** Exactly which counters the budget covers, for every task id, kind and message within the contract and
      every minted token: those whose digits, with the state, take at most 3787 bytes. */
  lemma {:induction false} CountersExactly(state: string, done: nat, total: nat)
    requires Plain(state) && |state| <= 9
    ensures (forall status, token :: Counts(status, state, done, total) && Minted(token) ==> AlwaysFits(status, token))
       <==> |Digits(done)| + |Digits(total)| + |state| <= COUNTER_BUDGET
  {
    if |Digits(done)| + |Digits(total)| + |state| <= COUNTER_BUDGET {
      forall status, token | Counts(status, state, done, total) && Minted(token) ensures AlwaysFits(status, token) {
        EnvelopeBound(status);
        TokenBound(token);
        BudgetExactly(status, token);
      }
    } else {
      var worst := Costliest(state, done, total);
      CostliestEnvelope(state, done, total);
      assert Counts(worst, state, done, total);
      PlaceholderMinted();
      BudgetExactly(worst, PLACEHOLDER);
      assert !AlwaysFits(worst, PLACEHOLDER);
    }
  }

  lemma {:induction false} PlaceholderMinted()
    ensures Minted(PLACEHOLDER)
  {
    assert Plain(TOKEN_PLACEHOLDER);
  }

  lemma {:induction false} TokenBound(token: Token)
    requires Minted(token)
    ensures Size(TokenJson(token)) <= Size(TokenJson(PLACEHOLDER))
  {
    PlainTokenSize(token);
    PlaceholderSize();
  }

  /** The compact failure sent in place of an oversized terminal, carrying a fixed notice. */
  function Degraded(status: Status, notice: string): Status {
    status.(state := "failed", result := Null, error := Some(notice))
  }

  /** `_send_execution_report` for a terminal status: what reaches the Host. */
  function Delivered(status: Status, notice: string): Status {
    if Bytes(Frame(status)) <= MAX_FRAME_BYTES then status else Degraded(status, notice)
  }

  /** Within the contract, a plan that passed the check before its token was minted is the plan the Host
      receives: it is never dropped for size. */
  lemma {:induction false} MintedPlanArrives(body: seq<Member>, token: Token, status: Status, notice: string)
    requires Deliverable(body) && Minted(token) && WithinContract(status) && CounterBytes(status) <= COUNTER_BUDGET
    requires status.result == Plan(body, token) && status.error == None
    ensures Delivered(status, notice) == status
  {
    EnvelopeBound(status);
    TokenBound(token);
    BudgetExactly(status, token);
    assert status.(result := Plan(body, token)) == status;
  }

  /** Exactly which counters and notice the compact report has room for, for every task id, kind and message
      within the contract. */
  lemma {:induction false} CompactExactly(done: nat, total: nat, notice: string)
    ensures (forall status :: WithinContract(status) && status.done == done && status.total == total ==>
               Fits(Degraded(status, notice)))
       <==> CompactRoom(done, total, notice)
  {
    forall status | WithinContract(status) && status.done == done && status.total == total
      ensures CompactRoom(done, total, notice) ==> Fits(Degraded(status, notice))
    {
      CompactSize(status, notice);
      EscapeBytes(status.taskId);
      EscapeBytes(status.kind);
      EscapeBytes(status.message);
    }
    var worst := Costliest("", done, total);
    CompactSize(worst, notice);
    EscapeBytes(worst.taskId);
    EscapeBytes(worst.kind);
    EscapeBytes(worst.message);
    assert WithinContract(worst);
  }

  predicate CompactRoom(done: nat, total: nat, notice: string) {
    |Digits(done)| + |Digits(total)| + Bytes(EscapeAll(notice)) + 4413 <= MAX_FRAME_BYTES
  }

  lemma {:induction false} CompactSize(status: Status, notice: string)
    ensures Bytes(Frame(Degraded(status, notice)))
         == Bytes(EscapeAll(status.taskId)) + Bytes(EscapeAll(status.kind)) + Bytes(EscapeAll(status.message))
            + |Digits(status.done)| + |Digits(status.total)| + Bytes(EscapeAll(notice)) + 189
  {
    FrameSize(Degraded(status, notice));
    WordSize("failed");
  }

  lemma {:induction false} WordSize(word: string)
    requires Plain(word)
    ensures Bytes(EscapeAll(word)) == |word|
  {
    PlainEscape(word);
    AsciiBytes(word);
  }

  /** So with such counters and notice some terminal report always fits. */
  lemma {:induction false} DeliveredFits(status: Status, notice: string)
    requires WithinContract(status) && CompactRoom(status.done, status.total, notice)
    ensures Fits(Delivered(status, notice))
  {
    CompactExactly(status.done, status.total, notice);
  }
}
