/** The indentation-stack reader of `scripts/automation_core.py` (`_read_yaml_scalar`). */
module YamlScalar {
  import opened Common

  /** A line of the form `key:` or `key: value`. */
  datatype KeyLine = KeyLine(indent: nat, key: string, value: string)

  /** An open parent on the stack. */
  datatype Frame = Frame(indent: nat, key: string)

  // ---------------------------------------------------------------- one line

  predicate Blank(c: char) {
    c == ' ' || c == '\t' || c == '\n' || c == '\r' || c == 11 as char || c == 12 as char
  }

  predicate KeyChar(c: char) {
    'A' <= c <= 'Z' || 'a' <= c <= 'z' || '0' <= c <= '9' || c == '_' || c == '-'
  }

  /** How many characters at the front satisfy `p`. */
  function Span(s: string, p: char -> bool): (n: nat)
    ensures n <= |s| && (forall i :: 0 <= i < n ==> p(s[i])) && (n < |s| ==> !p(s[n]))
  {
    if s == "" || !p(s[0]) then 0 else 1 + Span(s[1..], p)
  }

  function StripEnd(s: string, p: char -> bool): (r: string)
    ensures r <= s && (r != "" ==> !p(r[|r| - 1]))
  {
    if s == "" || !p(s[|s| - 1]) then s else StripEnd(s[..|s| - 1], p)
  }

  function Strip(s: string, p: char -> bool): string {
    StripEnd(s[Span(s, p)..], p)
  }

  /** The match of the key pattern: blanks, key characters, a colon and the stripped rest. */
  function Parse(raw: string): Option<KeyLine> {
    var indent := Span(raw, Blank);
    var rest := raw[indent..];
    var n := Span(rest, KeyChar);
    if n == 0 || n == |rest| || rest[n] != ':' then None
    else Some(KeyLine(indent, rest[..n], Strip(rest[n + 1..], Blank)))
  }

  /** The characters between tab and carriage return, and the space. */
  ghost predicate IsBlank(c: char) {
    9 <= c as int <= 13 || c as int == 32
  }

  /** Digits, letters, underscore and hyphen, by their codes. */
  ghost predicate IsKeyChar(c: char) {
    var n := c as int;
    48 <= n <= 57 || 65 <= n <= 90 || 97 <= n <= 122 || n == 95 || n == 45
  }

  lemma ClassesMean(c: char)
    ensures (Blank(c) <==> IsBlank(c)) && (KeyChar(c) <==> IsKeyChar(c))
    ensures Quote(c) <==> c as int == 34 || c as int == 39
  {
  }

  /** `r` is `s` without some characters of the kind `p` at both ends, and has none left there. */
  ghost predicate Trims(s: string, p: char -> bool, r: string) {
    && (r != "" ==> !p(r[0]) && !p(r[|r| - 1]))
    && exists before, after :: Wraps(s, p, before, r, after)
  }

  ghost predicate All(s: string, p: char -> bool) {
    forall i :: 0 <= i < |s| ==> p(s[i])
  }

  ghost predicate Wraps(s: string, p: char -> bool, before: string, r: string, after: string) {
    s == before + r + after && All(before, p) && All(after, p)
  }

  lemma {:induction false} StripEndWraps(s: string, p: char -> bool)
    ensures StripEnd(s, p) <= s && All(s[|StripEnd(s, p)|..], p)
  {
    if s != "" && p(s[|s| - 1]) {
      var init := s[..|s| - 1];
      StripEndWraps(init, p);
      assert s[|StripEnd(init, p)|..] == init[|StripEnd(init, p)|..] + [s[|s| - 1]];
    }
  }

  lemma {:induction false} Reassembled(s: string, n: nat, k: nat)
    ensures n <= |s| && k <= |s[n..]| ==>
              s == s[..n] + s[n..][..k] + s[n..][k..]
  {
  }

  lemma {:induction false} WrapsAt(s: string, p: char -> bool, n: nat, k: nat)
    requires n <= |s| && k <= |s[n..]| && All(s[..n], p) && All(s[n..][k..], p)
    ensures Wraps(s, p, s[..n], s[n..][..k], s[n..][k..])
  {
    Reassembled(s, n, k);
  }

  lemma {:induction false} StripWraps(s: string, p: char -> bool)
    ensures exists before, after :: Wraps(s, p, before, Strip(s, p), after)
  {
    var n := Span(s, p);
    var rest := s[n..];
    var r := StripEnd(rest, p);
    StripEndWraps(rest, p);
    WrapsAt(s, p, n, |r|);
    assert r == rest[..|r|];
    assert Strip(s, p) == r;
    assert Wraps(s, p, s[..n], Strip(s, p), rest[|r|..]);
  }

  lemma {:induction false} StripTrims(s: string, p: char -> bool)
    ensures Trims(s, p, Strip(s, p))
  {
    StripWraps(s, p);
    StripStarts(s, p);
  }

  lemma {:induction false} StripStarts(s: string, p: char -> bool)
    ensures var r := Strip(s, p);
            r != "" ==> !p(r[0]) && !p(r[|r| - 1])
  {
    var n := Span(s, p);
    var r := StripEnd(s[n..], p);
    if r != "" {
      assert r[0] == s[n..][0] == s[n];
    }
  }

  lemma AtFront(s: string, p: char -> bool, before: string, r: string, after: string, k: nat)
    ensures Wraps(s, p, before, r, after) && k < |before| ==>
              p(s[k])
  {
    if Wraps(s, p, before, r, after) && k < |before| {
      assert s[k] == before[k];
    }
  }

  lemma AtEnd(s: string, p: char -> bool, before: string, r: string, after: string, k: nat)
    ensures Wraps(s, p, before, r, after) && |s| - |after| <= k < |s| ==>
              p(s[k])
  {
    if Wraps(s, p, before, r, after) && |s| - |after| <= k < |s| {
      assert s[k] == after[k - (|s| - |after|)];
    }
  }

  /** The kept part starts where the characters of the kind first end, and ends where they begin again. */
  lemma {:induction false} EndsAgree(s: string, p: char -> bool, a0: string, a: string, a1: string,
                                     b0: string, b: string, b1: string)
    requires Wraps(s, p, a0, a, a1) && Wraps(s, p, b0, b, b1) && a != "" && !p(a[0]) && !p(a[|a| - 1])
    ensures |b0| <= |a0| && |b1| <= |a1| && b != ""
  {
    var first: nat, last: nat := |a0|, |s| - |a1| - 1;
    assert s[first] == a[0] && s[last] == a[|a| - 1];
    if |b0| > |a0| {
      AtFront(s, p, b0, b, b1, first);
      assert false;
    }
    if |b1| > |a1| {
      AtEnd(s, p, b0, b, b1, last);
      assert false;
    }
  }

  /** Both ends are decided by the text. */
  lemma {:induction false} TrimsUnique(s: string, p: char -> bool, a: string, b: string)
    requires Trims(s, p, a) && Trims(s, p, b)
    ensures a == b
  {
    var a0, a1 :| Wraps(s, p, a0, a, a1);
    var b0, b1 :| Wraps(s, p, b0, b, b1);
    if a != "" {
      EndsAgree(s, p, a0, a, a1, b0, b, b1);
    }
    if b != "" {
      EndsAgree(s, p, b0, b, b1, a0, a, a1);
    }
    assert a == s[|a0|..|s| - |a1|] && b == s[|b0|..|s| - |b1|];
  }

  /** The line reads: blanks, a key, a colon, and the value between blanks. */
  ghost predicate Reads(raw: string, k: KeyLine) {
    exists blanks, tail :: ReadsAs(raw, k, blanks, tail)
  }

  ghost predicate ReadsAs(raw: string, k: KeyLine, blanks: string, tail: string) {
    && raw == blanks + k.key + ":" + tail && |blanks| == k.indent
    && (forall i :: 0 <= i < |blanks| ==> IsBlank(blanks[i]))
    && k.key != "" && (forall i :: 0 <= i < |k.key| ==> IsKeyChar(k.key[i]))
    && Trims(tail, Blank, k.value)
  }

  lemma {:induction false} SpanIs(s: string, p: char -> bool, n: nat)
    ensures (n < |s| && (forall i :: 0 <= i < n ==> p(s[i])) && !p(s[n])) ==>
              Span(s, p) == n
  {
  }

  lemma {:induction false} Cut(raw: string, indent: nat, n: nat)
    ensures indent <= |raw| && n < |raw[indent..]| ==>
              (var rest := raw[indent..];
              raw == raw[..indent] + rest[..n] + [rest[n]] + rest[n + 1..])
  {
  }

  lemma {:induction false} ParseReads(raw: string)
    requires Parse(raw).Some?
    ensures Reads(raw, Parse(raw).value)
  {
    var indent := Span(raw, Blank);
    var rest := raw[indent..];
    var n := Span(rest, KeyChar);
    var tail := rest[n + 1..];
    Cut(raw, indent, n);
    StripTrims(tail, Blank);
    forall i | 0 <= i < indent ensures IsBlank(raw[..indent][i]) { ClassesMean(raw[i]); }
    forall i | 0 <= i < n ensures IsKeyChar(rest[..n][i]) { ClassesMean(rest[i]); }
    assert ReadsAs(raw, KeyLine(indent, rest[..n], Strip(tail, Blank)), raw[..indent], tail);
  }

  lemma {:induction false} Pieces(blanks: string, key: string, tail: string)
    ensures var raw := blanks + key + ":" + tail;
            && |raw| == |blanks| + |key| + 1 + |tail| && raw[|blanks|..] == key + ":" + tail
            && (forall i :: 0 <= i < |blanks| ==> raw[i] == blanks[i])
    ensures var rest := key + ":" + tail;
            && rest[..|key|] == key && rest[|key|] == ':' && rest[|key| + 1..] == tail
  {
  }

  lemma {:induction false} ReadsParse(raw: string, k: KeyLine, blanks: string, tail: string)
    requires ReadsAs(raw, k, blanks, tail)
    ensures Parse(raw) == Some(k)
  {
    var rest := k.key + ":" + tail;
    Pieces(blanks, k.key, tail);
    forall i | 0 <= i < |blanks| ensures Blank(raw[i]) { ClassesMean(blanks[i]); }
    forall i | 0 <= i < |k.key| ensures KeyChar(rest[i]) && !Blank(rest[i]) {
      assert rest[i] == rest[..|k.key|][i] == k.key[i];
      ClassesMean(k.key[i]);
    }
    assert raw[|blanks|] == raw[|blanks|..][0] == rest[0];
    SpanIs(raw, Blank, |blanks|);
    SpanIs(rest, KeyChar, |k.key|);
    StripTrims(tail, Blank);
    TrimsUnique(tail, Blank, k.value, Strip(tail, Blank));
  }

  /** A line is a key line exactly if it reads as one, and then in one way. */
  lemma {:induction false} ParseExactly(raw: string, k: KeyLine)
    ensures Parse(raw) == Some(k) <==> Reads(raw, k)
  {
    if Parse(raw).Some? { ParseReads(raw); }
    if blanks, tail :| ReadsAs(raw, k, blanks, tail) { ReadsParse(raw, k, blanks, tail); }
  }

  function KeyLines(lines: seq<string>): seq<KeyLine> {
    if lines == [] then []
    else
      var last := Parse(lines[|lines| - 1]);
      KeyLines(lines[..|lines| - 1]) + (if last.Some? then [last.value] else [])
  }

  function Somes(options: seq<Option<KeyLine>>): seq<KeyLine> {
    if options == [] then []
    else
      var last := options[|options| - 1];
      Somes(options[..|options| - 1]) + (if last.Some? then [last.value] else [])
  }

  function Parsed(lines: seq<string>): (options: seq<Option<KeyLine>>)
    ensures |options| == |lines|
  {
    seq(|lines|, i requires 0 <= i < |lines| => Parse(lines[i]))
  }

  lemma {:induction false} KeyLinesAreSomes(lines: seq<string>)
    ensures KeyLines(lines) == Somes(Parsed(lines))
  {
    if lines != [] {
      var n := |lines| - 1;
      KeyLinesAreSomes(lines[..n]);
      assert Parsed(lines)[..n] == Parsed(lines[..n]);
    }
  }

  /** Where the values stand. */
  function Places(options: seq<Option<KeyLine>>): (at: seq<nat>)
    ensures |at| == |Somes(options)|
  {
    if options == [] then []
    else
      var last := |options| - 1;
      Places(options[..last]) + (if options[last].Some? then [last] else [])
  }

  lemma {:induction false} PlaceOf(options: seq<Option<KeyLine>>, i: nat)
    requires i < |Places(options)|
    ensures Places(options)[i] < |options| && options[Places(options)[i]] == Some(Somes(options)[i])
  {
    if options != [] {
      var init := options[..|options| - 1];
      if i < |Places(init)| { PlaceOf(init, i); }
    }
  }

  lemma {:induction false} PlacesAscend(options: seq<Option<KeyLine>>, i: nat, j: nat)
    requires i < j < |Places(options)|
    ensures Places(options)[i] < Places(options)[j]
  {
    var init := options[..|options| - 1];
    if j < |Places(init)| {
      PlacesAscend(init, i, j);
    } else {
      PlaceOf(init, i);
    }
  }

  lemma {:induction false} PlaceFound(options: seq<Option<KeyLine>>, n: nat) returns (i: nat)
    requires n < |options| && options[n].Some?
    ensures i < |Places(options)| && Places(options)[i] == n
  {
    var init := options[..|options| - 1];
    if n < |options| - 1 {
      i := PlaceFound(init, n);
    } else {
      i := |Places(init)|;
    }
  }

  /** The key lines are lines that read as one, in order ... */
  lemma {:induction false} KeyLineReads(lines: seq<string>, i: nat)
    requires i < |KeyLines(lines)|
    ensures |Places(Parsed(lines))| == |KeyLines(lines)|
    ensures Places(Parsed(lines))[i] < |lines| && Reads(lines[Places(Parsed(lines))[i]], KeyLines(lines)[i])
    ensures forall j :: i < j < |KeyLines(lines)| ==> Places(Parsed(lines))[i] < Places(Parsed(lines))[j]
  {
    KeyLinesAreSomes(lines);
    PlaceOf(Parsed(lines), i);
    ParseExactly(lines[Places(Parsed(lines))[i]], KeyLines(lines)[i]);
    forall j | i < j < |KeyLines(lines)| ensures Places(Parsed(lines))[i] < Places(Parsed(lines))[j] {
      PlacesAscend(Parsed(lines), i, j);
    }
  }

  /** ... and every line that reads as one is among them. */
  lemma {:induction false} ReadLineIsKey(lines: seq<string>, n: nat, k: KeyLine) returns (i: nat)
    requires n < |lines| && Reads(lines[n], k)
    ensures i < |KeyLines(lines)| && KeyLines(lines)[i] == k
    ensures |Places(Parsed(lines))| == |KeyLines(lines)| && Places(Parsed(lines))[i] == n
  {
    KeyLinesAreSomes(lines);
    ParseExactly(lines[n], k);
    i := PlaceFound(Parsed(lines), n);
    PlaceOf(Parsed(lines), i);
  }

  predicate Quote(c: char) { c == '"' || c == '\'' }

  // ---------------------------------------------------------------- parents

  /** Key line `j` opens a block that every key line after it, before line `i`, is inside of. */
  ghost predicate Open(keys: seq<KeyLine>, j: nat, i: nat)
    requires i <= |keys|
  {
    j < i && keys[j].value == "" && forall t :: j < t < i ==> keys[j].indent < keys[t].indent
  }

  /** Key line `j` is a parent of key line `i`: it opens a block that reaches down to `i` itself. */
  ghost predicate Parent(keys: seq<KeyLine>, j: nat, i: nat)
    requires i < |keys|
  {
    Open(keys, j, i) && keys[j].indent < keys[i].indent
  }

  /** The chosen key lines among the first `n`, in order. */
  ghost function Select(keys: seq<KeyLine>, n: nat, chosen: set<nat>): seq<Frame>
    requires n <= |keys|
  {
    if n == 0 then []
    else Select(keys, n - 1, chosen) +
         (if n - 1 in chosen then [Frame(keys[n - 1].indent, keys[n - 1].key)] else [])
  }

  function Names(frames: seq<Frame>): (r: seq<string>)
    ensures |r| == |frames|
  {
    seq(|frames|, i requires 0 <= i < |frames| => frames[i].key)
  }

  ghost function ParentSet(keys: seq<KeyLine>, i: nat): set<nat>
    requires i < |keys|
  {
    set j | 0 <= j < i && Parent(keys, j, i)
  }

  ghost function OpenSet(keys: seq<KeyLine>, i: nat): set<nat>
    requires i <= |keys|
  {
    set j | 0 <= j < i && Open(keys, j, i)
  }

  ghost function Parents(keys: seq<KeyLine>, i: nat): seq<Frame>
    requires i < |keys|
  {
    Select(keys, i, ParentSet(keys, i))
  }

  ghost function OpenFrames(keys: seq<KeyLine>, i: nat): seq<Frame>
    requires i <= |keys|
  {
    Select(keys, i, OpenSet(keys, i))
  }

  /** Key line `i` holds a value under the dotted key `tokens`. */
  ghost predicate Holds(keys: seq<KeyLine>, i: nat, tokens: seq<string>)
    requires i < |keys|
  {
    keys[i].value != "" && Names(Parents(keys, i)) + [keys[i].key] == tokens
  }

  // ---------------------------------------------------------------- the stack

  ghost predicate Rising(frames: seq<Frame>) {
    forall a, b :: 0 <= a < b < |frames| ==> frames[a].indent < frames[b].indent
  }

  function Pop(frames: seq<Frame>, indent: nat): seq<Frame> {
    if frames != [] && frames[|frames| - 1].indent >= indent then Pop(frames[..|frames| - 1], indent) else frames
  }

  lemma {:induction false} SelectAgree(keys: seq<KeyLine>, n: nat, a: set<nat>, b: set<nat>)
    requires n <= |keys| && forall j: nat :: j < n ==> (j in a <==> j in b)
    ensures Select(keys, n, a) == Select(keys, n, b)
  {
    if n > 0 { SelectAgree(keys, n - 1, a, b); }
  }

  /** Popping from the top down to a smaller indent keeps exactly the selected lines below it. */
  lemma {:induction false} PopSelects(keys: seq<KeyLine>, n: nat, chosen: set<nat>, below: set<nat>, indent: nat)
    requires n <= |keys|
    requires forall j: nat, k: nat :: j < k < n && j in chosen && k in chosen ==> keys[j].indent < keys[k].indent
    requires forall j: nat :: j < n ==> (j in below <==> j in chosen && keys[j].indent < indent)
    ensures Pop(Select(keys, n, chosen), indent) == Select(keys, n, below)
  {
    if n > 0 {
      var init := Select(keys, n - 1, chosen);
      PopSelects(keys, n - 1, chosen, below, indent);
      if n - 1 in chosen {
        var frames := init + [Frame(keys[n - 1].indent, keys[n - 1].key)];
        assert frames[..|frames| - 1] == init;
        if keys[n - 1].indent < indent {
          SelectAgree(keys, n - 1, chosen, below);
        }
      }
      assert init + [] == init;
      assert n - 1 !in below ==> Select(keys, n, below) == Select(keys, n - 1, below);
    }
  }

  /** At key line `i` the popped stack is exactly its parents. */
  lemma {:induction false} PoppedIsParents(keys: seq<KeyLine>, i: nat)
    requires i < |keys|
    ensures Pop(OpenFrames(keys, i), keys[i].indent) == Parents(keys, i)
  {
    PopSelects(keys, i, OpenSet(keys, i), ParentSet(keys, i), keys[i].indent);
  }

  /** After key line `i` the stack is its parents and, if the line has no value, the line itself. */
  lemma {:induction false} PushedIsOpen(keys: seq<KeyLine>, i: nat)
    requires i < |keys|
    ensures OpenFrames(keys, i + 1) ==
            Parents(keys, i) + (if keys[i].value == "" then [Frame(keys[i].indent, keys[i].key)] else [])
  {
    SelectAgree(keys, i, OpenSet(keys, i + 1), ParentSet(keys, i));
  }

  lemma {:induction false} SelectIndents(keys: seq<KeyLine>, n: nat, chosen: set<nat>, bound: nat)
    requires n <= |keys|
    requires forall j: nat, k: nat :: j < k < n && j in chosen && k in chosen ==> keys[j].indent < keys[k].indent
    requires forall j: nat :: j < n && j in chosen ==> keys[j].indent < bound
    ensures Rising(Select(keys, n, chosen))
    ensures forall a :: 0 <= a < |Select(keys, n, chosen)| ==> Select(keys, n, chosen)[a].indent < bound
  {
    if n > 0 {
      if n - 1 in chosen {
        SelectIndents(keys, n - 1, chosen, keys[n - 1].indent);
      } else {
        SelectIndents(keys, n - 1, chosen, bound);
      }
    }
  }

  /** The parents of a line have strictly rising indents, all below the line's own. */
  lemma {:induction false} ParentsRise(keys: seq<KeyLine>, i: nat)
    requires i < |keys|
    ensures Rising(Parents(keys, i))
    ensures forall a :: 0 <= a < |Parents(keys, i)| ==> Parents(keys, i)[a].indent < keys[i].indent
  {
    SelectIndents(keys, i, ParentSet(keys, i), keys[i].indent);
  }

  // ---------------------------------------------------------------- the reader

  lemma {:induction false} KeyLinesExtend(lines: seq<string>, n: nat)
    requires n < |lines|
    ensures var last := Parse(lines[n]);
            KeyLines(lines[..n + 1]) == KeyLines(lines[..n]) + (if last.Some? then [last.value] else [])
  {
    assert lines[..n + 1][..n] == lines[..n];
  }

  lemma {:induction false} SelectPrefix(keys: seq<KeyLine>, more: seq<KeyLine>, n: nat, chosen: set<nat>)
    requires n <= |keys|
    ensures Select(keys + more, n, chosen) == Select(keys, n, chosen)
  {
    if n > 0 { SelectPrefix(keys, more, n - 1, chosen); }
  }

  lemma {:induction false} OpenAgree(keys: seq<KeyLine>, more: seq<KeyLine>, j: nat, i: nat)
    requires j < i <= |keys|
    ensures Open(keys + more, j, i) <==> Open(keys, j, i)
  {
    assert forall t :: j <= t < i ==> (keys + more)[t] == keys[t];
  }

  /** Facts about a line depend only on the lines up to it. */
  lemma {:induction false} HoldsPrefix(keys: seq<KeyLine>, more: seq<KeyLine>, i: nat, tokens: seq<string>)
    requires i < |keys|
    ensures Holds(keys + more, i, tokens) <==> Holds(keys, i, tokens)
  {
    var all := keys + more;
    forall j | 0 <= j < i ensures Parent(all, j, i) <==> Parent(keys, j, i) {
      OpenAgree(keys, more, j, i);
    }
    assert ParentSet(all, i) == ParentSet(keys, i);
    SelectPrefix(keys, more, i, ParentSet(keys, i));
  }

  lemma {:induction false} OpenPrefix(keys: seq<KeyLine>, more: seq<KeyLine>)
    ensures OpenFrames(keys + more, |keys|) == OpenFrames(keys, |keys|)
  {
    forall j | 0 <= j < |keys| ensures Open(keys + more, j, |keys|) <==> Open(keys, j, |keys|) {
      OpenAgree(keys, more, j, |keys|);
    }
    assert OpenSet(keys + more, |keys|) == OpenSet(keys, |keys|);
    SelectPrefix(keys, more, |keys|, OpenSet(keys, |keys|));
  }

  method PopTo(stack: seq<Frame>, indent: nat) returns (r: seq<Frame>)
    ensures r == Pop(stack, indent)
  {
    r := stack;
    while r != [] && r[|r| - 1].indent >= indent
      invariant Pop(r, indent) == Pop(stack, indent)
      decreases |r|
    {
      r := r[..|r| - 1];
    }
  }

  /** One key line: pop to its parents, answer if it holds the value asked for, push it if it opens a
      block. */
  method ReadLine(ghost keys: seq<KeyLine>, line: KeyLine, stack: seq<Frame>, tokens: seq<string>)
    returns (found: bool, after: seq<Frame>)
    requires stack == OpenFrames(keys, |keys|)
    ensures found <==> Holds(keys + [line], |keys|, tokens)
    ensures !found ==> after == OpenFrames(keys + [line], |keys| + 1)
  {
    ghost var all := keys + [line];
    OpenPrefix(keys, [line]);
    PoppedIsParents(all, |keys|);
    PushedIsOpen(all, |keys|);
    after := PopTo(stack, line.indent);
    found := Names(after) + [line.key] == tokens && line.value != "";
    if line.value == "" {
      after := after + [Frame(line.indent, line.key)];
    }
  }

  /** No line so far holds the value asked for, and the stack is what the lines so far leave open. */
  ghost predicate Searching(keys: seq<KeyLine>, stack: seq<Frame>, tokens: seq<string>) {
    stack == OpenFrames(keys, |keys|) && forall i :: 0 <= i < |keys| ==> !Holds(keys, i, tokens)
  }

  /** Key line `i` is the first that holds a value under the dotted key. */
  ghost predicate First(keys: seq<KeyLine>, i: nat, tokens: seq<string>) {
    i < |keys| && Holds(keys, i, tokens) && forall k :: 0 <= k < i ==> !Holds(keys, k, tokens)
  }

  lemma {:induction false} SearchStep(keys: seq<KeyLine>, line: KeyLine, stack: seq<Frame>, after: seq<Frame>,
                                      found: bool, tokens: seq<string>)
    requires Searching(keys, stack, tokens)
    requires found <==> Holds(keys + [line], |keys|, tokens)
    requires !found ==> after == OpenFrames(keys + [line], |keys| + 1)
    ensures found ==> First(keys + [line], |keys|, tokens)
    ensures !found ==> Searching(keys + [line], after, tokens)
  {
    Extended(keys, line, tokens);
  }

  /** The scan over the lines: stops behind the first key line that holds the value asked for. */
  method Scan(lines: seq<string>, tokens: seq<string>) returns (found: Option<string>, n: nat)
    ensures n <= |lines|
    ensures var keys := KeyLines(lines[..n]);
            match found
            case Some(value) => keys != [] && First(keys, |keys| - 1, tokens) && value == keys[|keys| - 1].value
            case None => n == |lines| && forall i :: 0 <= i < |keys| ==> !Holds(keys, i, tokens)
  {
    var stack: seq<Frame> := [];
    ghost var keys: seq<KeyLine> := [];
    n := 0;
    while n < |lines|
      invariant n <= |lines| && keys == KeyLines(lines[..n])
      invariant Searching(keys, stack, tokens)
    {
      KeyLinesExtend(lines, n);
      var parsed := Parse(lines[n]);
      n := n + 1;
      if parsed.Some? {
        var holds, after := ReadLine(keys, parsed.value, stack, tokens);
        SearchStep(keys, parsed.value, stack, after, holds, tokens);
        keys := keys + [parsed.value];
        if holds {
          return Some(parsed.value.value), n;
        }
        stack := after;
      }
    }
    return None, n;
  }

  /** The value of the first key line that holds one under the dotted key; it fails exactly when no line
      does. */
  method ReadYamlScalar(lines: seq<string>, tokens: seq<string>) returns (r: Result<string>)
    ensures r.Success? ==>
              exists i: nat :: First(KeyLines(lines), i, tokens) && Trims(KeyLines(lines)[i].value, Quote, r.value)
    ensures r.Failure? ==> forall i :: 0 <= i < |KeyLines(lines)| ==> !Holds(KeyLines(lines), i, tokens)
  {
    var found, n := Scan(lines, tokens);
    if found.None? {
      assert lines[..n] == lines;
      return Failure("missing YAML scalar");
    }
    FirstOfAll(lines, n, |KeyLines(lines[..n])| - 1, tokens);
    StripTrims(found.value, Quote);
    return Success(Strip(found.value, Quote));
  }

  lemma {:induction false} FirstOfAll(lines: seq<string>, n: nat, i: nat, tokens: seq<string>)
    requires n <= |lines| && First(KeyLines(lines[..n]), i, tokens)
    ensures First(KeyLines(lines), i, tokens) && KeyLines(lines)[i] == KeyLines(lines[..n])[i]
  {
    Found(lines, n, KeyLines(lines[..n]), i, tokens);
  }

  /** Appending a line changes neither the open blocks before it nor what the earlier lines hold. */
  lemma {:induction false} Extended(keys: seq<KeyLine>, line: KeyLine, tokens: seq<string>)
    ensures OpenFrames(keys + [line], |keys|) == OpenFrames(keys, |keys|)
    ensures forall i :: 0 <= i < |keys| ==> (Holds(keys + [line], i, tokens) <==> Holds(keys, i, tokens))
  {
    OpenPrefix(keys, [line]);
    forall i | 0 <= i < |keys| ensures Holds(keys + [line], i, tokens) <==> Holds(keys, i, tokens) {
      HoldsPrefix(keys, [line], i, tokens);
    }
  }

  /** What the first `n` lines hold, all lines hold. */
  lemma {:induction false} Found(lines: seq<string>, n: nat, keys: seq<KeyLine>, i: nat, tokens: seq<string>)
    requires n <= |lines| && keys == KeyLines(lines[..n]) && i < |keys|
    ensures var all := KeyLines(lines);
            && i < |all| && all[i] == keys[i]
            && forall k :: 0 <= k <= i ==> (Holds(all, k, tokens) <==> Holds(keys, k, tokens))
    decreases |lines| - n
  {
    if n == |lines| {
      assert lines[..n] == lines;
    } else {
      KeyLinesExtend(lines, n);
      var next := KeyLines(lines[..n + 1]);
      var last := Parse(lines[n]);
      forall k | 0 <= k <= i ensures Holds(next, k, tokens) <==> Holds(keys, k, tokens) {
        HoldsPrefix(keys, if last.Some? then [last.value] else [], k, tokens);
      }
      Found(lines, n + 1, next, i, tokens);
    }
  }
}
