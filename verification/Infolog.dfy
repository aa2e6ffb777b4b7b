/** The walk that turns an operation's JSON answer into typed messages. */
module Infolog {
  import opened Commons

  /** JSON. A number carries the text it prints as; an object lists its members in its own order. */
  datatype Json =
    | Null
    | Bool(b: bool)
    | Num(text: string)
    | Str(s: string)
    | Arr(items: seq<Json>)
    | Obj(fields: seq<Field>)

  datatype Field = Field(key: string, value: Json)

  datatype Severity = Success | Error | Warning | Info | Unknown(c: char)

  /** A message text: a plain string, or a JSON value printed compactly. */
  datatype Text = Plain(s: string) | Printed(v: Json)

  datatype Message =
    Message(severity: Severity, code: string, text: Text, field: Option<string>, environment: Option<string>)

  // ----- severities -----

  function ParseSeverity(s: string): Severity {
    var t := Trim(s);
    var l := Lower(t);
    if l == "success" || l == "s" then Success
    else if l == "error" || l == "e" then Error
    else if l == "warning" || l == "warn" || l == "w" then Warning
    else if l == "info" || l == "information" || l == "i" then Info
    else Unknown(if t == [] then ' ' else t[0])
  }

  predicate SeverityFails(s: Severity) {
    s.Error? || s.Unknown?
  }

  predicate Fails(m: Message) { SeverityFails(m.severity) }

  /** The words that do not fail an operation, in lower case. */
  const BENIGN := {"success", "s", "warning", "warn", "w", "info", "information", "i"}

  /** Fail-closed: every severity text outside the benign words fails, whatever its case or padding. */
  lemma FailsUnlessBenign(s: string)
    ensures SeverityFails(ParseSeverity(s)) <==> Lower(Trim(s)) !in BENIGN
  {
    var l := Lower(Trim(s));
    assert l in BENIGN <==>
      || l == "success" || l == "s" || l == "warning" || l == "warn" || l == "w"
      || l == "info" || l == "information" || l == "i";
    assert |"error"| == 5 && |"e"| == 1;
    assert "e" != "s" && "e" != "w" && "e" != "i";
  }

  // ----- objects -----

  function Get(fields: seq<Field>, key: string): Option<Json> {
    if fields == [] then None
    else if fields[0].key == key then Some(fields[0].value)
    else Get(fields[1..], key)
  }

  predicate Has(fields: seq<Field>, key: string) { Get(fields, key).Some? }

  predicate HasAny(fields: seq<Field>, keys: seq<string>) {
    exists i :: 0 <= i < |keys| && Has(fields, keys[i])
  }

  /** The value of the first of `keys` that is present as a string or a number. */
  function FirstStr(fields: seq<Field>, keys: seq<string>): Option<string> {
    if keys == [] then None
    else
      match Get(fields, keys[0])
      case Some(Str(s)) => Some(s)
      case Some(Num(t)) => Some(t)
      case _ => FirstStr(fields, keys[1..])
  }

  function OrEmpty(s: Option<string>): string {
    match s case Some(t) => t case None => ""
  }

  function MessageText(v: Json): Text {
    match v
    case Str(s) => Plain(s)
    case Obj(fields) =>
      (match Get(fields, "value") case Some(Str(s)) => Plain(s) case _ => Printed(v))
    case _ => Printed(v)
  }

  predicate IsErrorPayload(v: Json) {
    v.Obj? && Get(v.fields, "error").Some? && Get(v.fields, "error").value.Obj?
  }

  predicate IsRow(v: Json) {
    && v.Obj?
    && HasAny(v.fields, ["severity", "Severity", "type", "TYPE"])
    && HasAny(v.fields, ["message", "Message", "text", "MESSAGE"])
  }

  /** A value that is one message by itself; the walk looks no deeper there. */
  predicate Reports(v: Json) { IsErrorPayload(v) || IsRow(v) }

  function ErrorMessage(err: seq<Field>): Message {
    Message(
      Error,
      OrEmpty(FirstStr(err, ["code", "Code"])),
      match Get(err, "message") case Some(m) => MessageText(m) case None => Plain(""),
      FirstStr(err, ["target", "Target"]),
      None)
  }

  function RowMessage(row: seq<Field>): Message {
    Message(
      match FirstStr(row, ["severity", "Severity", "type", "TYPE"])
      case Some(s) => ParseSeverity(s)
      case None => Unknown(' '),
      OrEmpty(FirstStr(row, ["code", "Code", "ID", "id"])),
      Plain(OrEmpty(FirstStr(row, ["message", "Message", "text", "MESSAGE"]))),
      FirstStr(row, ["field", "Field", "FIELD", "target"]),
      FirstStr(row, ["environment", "system", "SYSTEM"]))
  }

  /** The message of a value that reports one; an error payload wins over a row. */
  function Report(v: Json): Message
    requires Reports(v)
  {
    if IsErrorPayload(v) then ErrorMessage(Get(v.fields, "error").value.fields) else RowMessage(v.fields)
  }

  /** The values directly inside one. */
  function Children(v: Json): (r: seq<Json>)
    ensures forall i :: 0 <= i < |r| ==> r[i] < v
  {
    match v
    case Arr(items) => items
    case Obj(fields) => Values(fields)
    case _ => []
  }

  function Values(fields: seq<Field>): (r: seq<Json>)
    ensures |r| == |fields|
    ensures forall i :: 0 <= i < |r| ==> r[i] == fields[i].value
  {
    if fields == [] then [] else Values(fields[..|fields| - 1]) + [fields[|fields| - 1].value]
  }

  // ----- what a message says, field by field -----

  /** The severity each word stands for, whatever its case and padding; any other text keeps its first character. */
  lemma SeverityIs(s: string)
    ensures ParseSeverity(s).Success? <==> Lower(Trim(s)) in {"success", "s"}
    ensures ParseSeverity(s).Error? <==> Lower(Trim(s)) in {"error", "e"}
    ensures ParseSeverity(s).Warning? <==> Lower(Trim(s)) in {"warning", "warn", "w"}
    ensures ParseSeverity(s).Info? <==> Lower(Trim(s)) in {"info", "information", "i"}
    ensures ParseSeverity(s).Unknown? ==> ParseSeverity(s).c == if Trim(s) == "" then ' ' else Trim(s)[0]
  {
    var l := Lower(Trim(s));
    assert |"success"| == 7 && |"s"| == 1 && |"error"| == 5 && |"e"| == 1 && |"warning"| == 7 && |"warn"| == 4;
    assert |"w"| == 1 && |"info"| == 4 && |"information"| == 11 && |"i"| == 1;
    assert "success"[0] == 's' && "warning"[0] == 'w' && "warn"[0] == 'w' && "info"[0] == 'i';
    assert "s"[0] == 's' && "e"[0] == 'e' && "w"[0] == 'w' && "i"[0] == 'i';
  }

  ghost predicate IsFirstField(fields: seq<Field>, i: nat, key: string) {
    i < |fields| && fields[i].key == key && forall j :: 0 <= j < i ==> fields[j].key != key
  }

  /** A key's value is that of its first field, and there is none without such a field. */
  lemma {:induction false} GetIs(fields: seq<Field>, key: string)
    ensures Get(fields, key).None? <==> forall i :: 0 <= i < |fields| ==> fields[i].key != key
    ensures forall i: nat :: IsFirstField(fields, i, key) ==> Get(fields, key) == Some(fields[i].value)
  {
    if fields != [] {
      GetIs(fields[1..], key);
      assert fields == [fields[0]] + fields[1..];
      forall i: nat | IsFirstField(fields, i, key) && i > 0
        ensures Get(fields, key) == Some(fields[i].value)
      {
        assert IsFirstField(fields[1..], i - 1, key);
      }
    }
  }

  /** The key holds `t` as a string, or as the text of a number. */
  predicate HasText(fields: seq<Field>, key: string, t: string) {
    Get(fields, key) == Some(Str(t)) || Get(fields, key) == Some(Num(t))
  }

  ghost predicate NoText(fields: seq<Field>, key: string) {
    forall t :: !HasText(fields, key, t)
  }

  ghost predicate NoTextAmong(fields: seq<Field>, keys: seq<string>) {
    forall i :: 0 <= i < |keys| ==> NoText(fields, keys[i])
  }

  /** Key number `i` is the first that holds a text, and that text is `t`. */
  ghost predicate IsFirstText(fields: seq<Field>, keys: seq<string>, i: nat, t: string) {
    i < |keys| && HasText(fields, keys[i], t) && NoTextAmong(fields, keys[..i])
  }

  /** `r` is the text of the first key that holds one, if any does. */
  ghost predicate IsTextOf(fields: seq<Field>, keys: seq<string>, r: Option<string>) {
    if r.Some? then exists i: nat :: IsFirstText(fields, keys, i, r.value) else NoTextAmong(fields, keys)
  }

  ghost predicate IsTextOrEmpty(fields: seq<Field>, keys: seq<string>, s: string) {
    IsTextOf(fields, keys, Some(s)) || (s == "" && IsTextOf(fields, keys, None))
  }

  lemma {:induction false} FirstStrIs(fields: seq<Field>, keys: seq<string>)
    ensures IsTextOf(fields, keys, FirstStr(fields, keys))
  {
    if keys != [] {
      var j := Get(fields, keys[0]);
      if j.Some? && (j.value.Str? || j.value.Num?) {
        var t := if j.value.Str? then j.value.s else j.value.text;
        assert HasText(fields, keys[0], t) && keys[..0] == [];
        assert IsFirstText(fields, keys, 0, t);
      } else {
        var r := FirstStr(fields, keys[1..]);
        FirstStrIs(fields, keys[1..]);
        assert NoText(fields, keys[0]);
        if r.Some? {
          var i: nat :| IsFirstText(fields, keys[1..], i, r.value);
          assert keys[..i + 1] == [keys[0]] + keys[1..][..i];
          assert IsFirstText(fields, keys, i + 1, r.value);
        } else {
          assert keys == [keys[0]] + keys[1..];
        }
      }
    }
  }

  lemma OrEmptyIs(fields: seq<Field>, keys: seq<string>)
    ensures IsTextOrEmpty(fields, keys, OrEmpty(FirstStr(fields, keys)))
  {
    hide IsTextOf;
    FirstStrIs(fields, keys);
  }

  lemma TextIsUnique(fields: seq<Field>, keys: seq<string>, a: Option<string>, b: Option<string>)
    requires IsTextOf(fields, keys, a) && IsTextOf(fields, keys, b)
    ensures a == b
  {
    if a.Some? && b.Some? {
      var i: nat :| IsFirstText(fields, keys, i, a.value);
      var j: nat :| IsFirstText(fields, keys, j, b.value);
      if i < j {
        EarlierHasNoText(fields, keys, j, b.value, i);
      } else if j < i {
        EarlierHasNoText(fields, keys, i, a.value, j);
      }
    }
  }

  lemma EarlierHasNoText(fields: seq<Field>, keys: seq<string>, i: nat, t: string, j: nat)
    requires IsFirstText(fields, keys, i, t) && j < i
    ensures NoText(fields, keys[j])
  {
    assert keys[..i][j] == keys[j];
  }

  /** A row is an object with a severity key and a message key. */
  lemma RowIs(fields: seq<Field>)
    ensures IsRow(Obj(fields)) <==>
      && (exists i :: 0 <= i < |fields| && fields[i].key in {"severity", "Severity", "type", "TYPE"})
      && (exists i :: 0 <= i < |fields| && fields[i].key in {"message", "Message", "text", "MESSAGE"})
  {
    HasAnyIs(fields, ["severity", "Severity", "type", "TYPE"]);
    HasAnyIs(fields, ["message", "Message", "text", "MESSAGE"]);
    hide HasAny;
    assert forall key ::
      key in {"severity", "Severity", "type", "TYPE"} <==> key in ["severity", "Severity", "type", "TYPE"];
    assert forall key ::
      key in {"message", "Message", "text", "MESSAGE"} <==> key in ["message", "Message", "text", "MESSAGE"];
  }

  lemma HasAnyIs(fields: seq<Field>, keys: seq<string>)
    ensures HasAny(fields, keys) <==> exists i :: 0 <= i < |fields| && fields[i].key in keys
  {
    forall key
      ensures Has(fields, key) <==> exists i :: 0 <= i < |fields| && fields[i].key == key
    {
      GetIs(fields, key);
    }
  }

  /** What the message of a row says, read off its fields. */
  lemma RowSays(v: Json)
    requires IsRow(v) && !IsErrorPayload(v)
    ensures exists severity ::
      && IsTextOf(v.fields, ["severity", "Severity", "type", "TYPE"], severity)
      && Report(v).severity == if severity.None? then Unknown(' ') else ParseSeverity(severity.value)
    ensures IsTextOrEmpty(v.fields, ["code", "Code", "ID", "id"], Report(v).code)
    ensures Report(v).text.Plain?
    ensures IsTextOrEmpty(v.fields, ["message", "Message", "text", "MESSAGE"], Report(v).text.s)
    ensures IsTextOf(v.fields, ["field", "Field", "FIELD", "target"], Report(v).field)
    ensures IsTextOf(v.fields, ["environment", "system", "SYSTEM"], Report(v).environment)
  {
    hide IsTextOf, FirstStr, Get, HasAny, ParseSeverity;
    FirstStrIs(v.fields, ["severity", "Severity", "type", "TYPE"]);
    OrEmptyIs(v.fields, ["code", "Code", "ID", "id"]);
    OrEmptyIs(v.fields, ["message", "Message", "text", "MESSAGE"]);
    FirstStrIs(v.fields, ["field", "Field", "FIELD", "target"]);
    FirstStrIs(v.fields, ["environment", "system", "SYSTEM"]);
  }

  /** An object whose first text under a severity key is no benign word, or that has no such text. */
  ghost predicate IsBadRow(v: Json) {
    v.Obj?
    && (|| NoTextAmong(v.fields, ["severity", "Severity", "type", "TYPE"])
        || exists t :: IsTextOf(v.fields, ["severity", "Severity", "type", "TYPE"], Some(t)) && IsBadWord(t))
  }

  predicate IsBadWord(t: string) {
    Lower(Trim(t)) !in {"success", "s", "warning", "warn", "w", "info", "information", "i"}
  }

  lemma BadWordFails(t: string)
    ensures SeverityFails(ParseSeverity(t)) <==> IsBadWord(t)
  {
    FailsUnlessBenign(t);
  }

  /** A row fails exactly when its severity is missing, is no text, or is no benign word. */
  lemma RowFailsIff(v: Json)
    requires IsRow(v) && !IsErrorPayload(v)
    ensures Fails(Report(v)) <==> IsBadRow(v)
  {
    var keys := ["severity", "Severity", "type", "TYPE"];
    RowSays(v);
    var severity :| IsTextOf(v.fields, keys, severity)
      && Report(v).severity == if severity.None? then Unknown(' ') else ParseSeverity(severity.value);
    FailsByText(v, severity);
  }

  lemma FailsByText(v: Json, severity: Option<string>)
    requires v.Obj? && IsTextOf(v.fields, ["severity", "Severity", "type", "TYPE"], severity)
    ensures IsBadRow(v) <==> SeverityFails(if severity.None? then Unknown(' ') else ParseSeverity(severity.value))
  {
    var keys := ["severity", "Severity", "type", "TYPE"];
    assert NoTextAmong(v.fields, keys) <==> IsTextOf(v.fields, keys, None);
    hide ParseSeverity, IsTextOf, IsBadWord, NoTextAmong;
    if severity.Some? {
      BadWordFails(severity.value);
    }
    forall other | IsTextOf(v.fields, keys, other)
      ensures other == severity
    {
      TextIsUnique(v.fields, keys, other, severity);
    }
  }

  /** What the message of an error payload says, read off the fields of its `error` object. */
  lemma ErrorSays(v: Json)
    requires IsErrorPayload(v)
    ensures var err := Get(v.fields, "error").value.fields;
      var m := Report(v);
      && m.severity == Error && m.environment == None
      && IsTextOrEmpty(err, ["code", "Code"], m.code)
      && IsTextOf(err, ["target", "Target"], m.field)
      && (Get(err, "message").None? ==> m.text == Plain(""))
      && (Get(err, "message").Some? ==> IsMessageText(Get(err, "message").value, m.text))
  {
    hide IsTextOf, FirstStr, Get;
    var err := Get(v.fields, "error").value.fields;
    OrEmptyIs(err, ["code", "Code"]);
    FirstStrIs(err, ["target", "Target"]);
  }

  /** A string, an object's string `value`, or else the whole value printed. */
  predicate IsMessageText(v: Json, t: Text) {
    if v.Str? then t == Plain(v.s)
    else if v.Obj? && Get(v.fields, "value").Some? && Get(v.fields, "value").value.Str?
    then t == Plain(Get(v.fields, "value").value.s)
    else t == Printed(v)
  }

  // ----- the walk -----

  /** The messages below a value, in document order; nothing is read below the eighth level. */
  function Messages(v: Json, depth: nat): seq<Message>
    decreases v, 1, 0
  {
    if depth > 8 then []
    else if Reports(v) then [Report(v)]
    else MessagesIn(v, Children(v), depth + 1)
  }

  function MessagesIn(parent: Json, vs: seq<Json>, depth: nat): seq<Message>
    requires forall i :: 0 <= i < |vs| ==> vs[i] < parent
    decreases parent, 0, |vs|
  {
    if vs == [] then []
    else MessagesIn(parent, vs[..|vs| - 1], depth) + Messages(vs[|vs| - 1], depth)
  }

  method Walk(v: Json, found: seq<Message>, depth: nat) returns (out: seq<Message>)
    ensures out == found + Messages(v, depth)
    decreases v
  {
    hide Get, HasAny, ErrorMessage, RowMessage, Values;
    out := found;
    if depth > 8 {
      return;
    }
    match v {
      case Obj(fields) =>
        var error := Get(fields, "error");
        if error.Some? && error.value.Obj? {
          out := out + [ErrorMessage(error.value.fields)];
          return;
        }
        var hasSeverity := HasAny(fields, ["severity", "Severity", "type", "TYPE"]);
        var hasMessage := HasAny(fields, ["message", "Message", "text", "MESSAGE"]);
        if hasSeverity && hasMessage {
          out := out + [RowMessage(fields)];
          return;
        }
        var values := Values(fields);
        for i := 0 to |values|
          invariant out == found + MessagesIn(v, values[..i], depth + 1)
        {
          assert values[..i + 1][..i] == values[..i];
          out := Walk(fields[i].value, out, depth + 1);
        }
        assert values[..|values|] == Children(v);
      case Arr(items) =>
        for i := 0 to |items|
          invariant out == found + MessagesIn(v, items[..i], depth + 1)
        {
          assert items[..i + 1][..i] == items[..i];
          out := Walk(items[i], out, depth + 1);
        }
        assert items[..|items|] == Children(v);
      case _ =>
        assert Children(v) == [];
    }
  }

  method ParseInfolog(v: Json) returns (out: seq<Message>)
    ensures out == Messages(v, 0)
    ensures forall m :: m in out <==> IsFound(v, m)
    ensures (exists i :: 0 <= i < |out| && Fails(out[i])) <==> exists p :: IsSite(v, p) && Fails(Report(At(v, p)))
  {
    out := Walk(v, [], 0);
    forall m
      ensures m in out <==> IsFound(v, m)
    {
      MessagesAreSites(v, m);
    }
    FailureIffSite(v);
  }

  // ----- what the walk finds, without the walk -----

  /** A place in a JSON value: the position of a child at each level. */
  type Path = seq<nat>

  predicate IsPlace(v: Json, p: Path) {
    p == [] || (p[0] < |Children(v)| && IsPlace(Children(v)[p[0]], p[1..]))
  }

  function At(v: Json, p: Path): Json
    requires IsPlace(v, p)
  {
    if p == [] then v else At(Children(v)[p[0]], p[1..])
  }

  /** A proper part of the path already ends at a value that reports a message. */
  predicate Shadowed(v: Json, p: Path)
    requires IsPlace(v, p)
  {
    p != [] && (Reports(v) || Shadowed(Children(v)[p[0]], p[1..]))
  }

  /** A reporting value within `levels` levels of `v`, with none reporting around it. */
  predicate SiteWithin(v: Json, p: Path, levels: int) {
    && |p| <= levels
    && IsPlace(v, p) && !Shadowed(v, p) && Reports(At(v, p))
  }

  predicate IsSite(v: Json, p: Path) { SiteWithin(v, p, 8) }

  ghost predicate IsFound(v: Json, m: Message) {
    exists p :: IsSite(v, p) && Report(At(v, p)) == m
  }

  ghost predicate FoundWithin(v: Json, levels: int, m: Message) {
    exists p :: SiteWithin(v, p, levels) && Report(At(v, p)) == m
  }

  lemma {:induction false} InMessagesIn(parent: Json, vs: seq<Json>, depth: nat, m: Message)
    requires forall i :: 0 <= i < |vs| ==> vs[i] < parent
    ensures m in MessagesIn(parent, vs, depth) <==> exists i :: 0 <= i < |vs| && m in Messages(vs[i], depth)
    decreases |vs|
  {
    hide Messages, Children;
    if vs != [] {
      var front, last := vs[..|vs| - 1], vs[|vs| - 1];
      InMessagesIn(parent, front, depth, m);
      assert forall i :: 0 <= i < |front| ==> front[i] == vs[i];
      assert m in Messages(last, depth) ==> vs[|vs| - 1] == last;
    }
  }

  lemma SiteBelow(v: Json, i: nat, p: Path, levels: int)
    requires !Reports(v) && i < |Children(v)|
    ensures SiteWithin(v, [i] + p, levels) <==> SiteWithin(Children(v)[i], p, levels - 1)
    ensures SiteWithin(v, [i] + p, levels) ==> At(v, [i] + p) == At(Children(v)[i], p)
  {
    assert ([i] + p)[1..] == p;
  }

  lemma FoundBelow(v: Json, levels: int, m: Message)
    requires !Reports(v)
    ensures FoundWithin(v, levels, m) <==>
      exists i :: 0 <= i < |Children(v)| && FoundWithin(Children(v)[i], levels - 1, m)
  {
    hide Reports, Report, Children;
    if FoundWithin(v, levels, m) {
      var p :| SiteWithin(v, p, levels) && Report(At(v, p)) == m;
      assert p != [];
      assert [p[0]] + p[1..] == p;
      SiteBelow(v, p[0], p[1..], levels);
      assert FoundWithin(Children(v)[p[0]], levels - 1, m);
    }
    if i :| 0 <= i < |Children(v)| && FoundWithin(Children(v)[i], levels - 1, m) {
      var p :| SiteWithin(Children(v)[i], p, levels - 1) && Report(At(Children(v)[i], p)) == m;
      SiteBelow(v, i, p, levels);
      assert FoundWithin(v, levels, m);
    }
  }

  lemma FoundHere(v: Json, levels: int, m: Message)
    requires Reports(v) && levels >= 0
    ensures FoundWithin(v, levels, m) <==> m == Report(v)
  {
    assert SiteWithin(v, [], levels);
    assert forall p :: SiteWithin(v, p, levels) ==> p == [];
  }

  lemma {:induction false} MessagesWithin(v: Json, depth: nat, m: Message)
    ensures m in Messages(v, depth) <==> FoundWithin(v, 8 - depth, m)
    decreases v
  {
    if depth > 8 {
    } else if Reports(v) {
      FoundHere(v, 8 - depth, m);
    } else {
      var vs := Children(v);
      InMessagesIn(v, vs, depth + 1, m);
      FoundBelow(v, 8 - depth, m);
      forall i | 0 <= i < |vs|
        ensures m in Messages(vs[i], depth + 1) <==> FoundWithin(vs[i], 8 - (depth + 1), m)
      {
        MessagesWithin(vs[i], depth + 1, m);
      }
    }
  }

  /**
   * A message is returned exactly when some error payload or row carries it, at most eight levels
   * down and not inside another one.
   */
  lemma MessagesAreSites(v: Json, m: Message)
    ensures m in Messages(v, 0) <==> IsFound(v, m)
  {
    MessagesWithin(v, 0, m);
    assert forall p :: IsSite(v, p) <==> SiteWithin(v, p, 8);
  }

  /** The walk reports a failure exactly when a failing site exists. */
  lemma FailureIffSite(v: Json)
    ensures (exists i :: 0 <= i < |Messages(v, 0)| && Fails(Messages(v, 0)[i]))
      <==> exists p :: IsSite(v, p) && Fails(Report(At(v, p)))
  {
    hide Messages, Report, At, Fails, Reports, IsPlace, Shadowed;
    var ms := Messages(v, 0);
    if i :| 0 <= i < |ms| && Fails(ms[i]) {
      MessagesAreSites(v, ms[i]);
      var p :| IsSite(v, p) && Report(At(v, p)) == ms[i];
    }
    if p :| IsSite(v, p) && Fails(Report(At(v, p))) {
      var m := Report(At(v, p));
      MessagesAreSites(v, m);
      assert IsFound(v, m);
      var i :| 0 <= i < |ms| && ms[i] == m;
    }
  }

  lemma NoMessagesIffNoSite(v: Json)
    ensures Messages(v, 0) == [] <==> forall p :: !IsSite(v, p)
  {
    if Messages(v, 0) != [] {
      MessagesAreSites(v, Messages(v, 0)[0]);
    }
    if p :| IsSite(v, p) {
      MessagesAreSites(v, Report(At(v, p)));
      assert IsFound(v, Report(At(v, p)));
    }
  }
}
