/** The decision whether a write was committed, over the messages its answer carries. */
module Transaction {
  import opened Commons
  import opened Infolog

  datatype Refusal = PermissionDenied | InvalidParameter | CallFailed(code: int)

  datatype Result<T> = Ok(value: T) | Err(error: Refusal)

  datatype Outcome = Outcome(operation: string, committed: bool, rolledBack: bool, messages: seq<Message>, result: Json)

  /** What the client answers when the operation is submitted. */
  datatype Reply = Returned(v: Json) | Failed(code: int)

  predicate HasFailure(messages: seq<Message>) {
    exists i :: 0 <= i < |messages| && Fails(messages[i])
  }

  /** The reserved name of the envelope, in any letter case. */
  predicate IsBatch(operation: string) { Lower(operation) == "$batch" }

  const UNCONFIRMED := Message(Warning, "D365AUTO", Plain("unconfirmed"), Option.None, Option.None)

  method ExecuteWriteOperation(operation: string, client: string -> Reply, readOnly: bool)
    returns (r: Result<Outcome>, submitted: nat)
    ensures submitted == if readOnly || IsBatch(operation) then 0 else 1
    ensures r.Ok? <==> !readOnly && !IsBatch(operation) && client(operation).Returned?
    ensures readOnly ==> r == Err(PermissionDenied)
    ensures !readOnly && IsBatch(operation) ==> r == Err(InvalidParameter)
    ensures !readOnly && !IsBatch(operation) && client(operation).Failed? ==>
      r == Err(CallFailed(client(operation).code))
    ensures r.Ok? ==>
      && r.value.operation == operation
      && r.value.result == client(operation).v
      && r.value.rolledBack == !r.value.committed
      && (r.value.committed <==> Confirms(client(operation).v))
      && r.value.messages != []
      && (HasFailure(r.value.messages) <==> HasFailure(Messages(client(operation).v, 0)))
      && (Messages(client(operation).v, 0) != [] ==> r.value.messages == Messages(client(operation).v, 0))
      && (Messages(client(operation).v, 0) == [] ==>
            r.value.messages == [Message(Warning, "D365AUTO", Plain("unconfirmed"), Option.None, Option.None)])
  {
    submitted := 0;
    if readOnly {
      return Err(PermissionDenied), submitted;
    }
    if IsBatch(operation) {
      return Err(InvalidParameter), submitted;
    }
    submitted := 1;
    match client(operation) {
      case Failed(code) =>
        return Err(CallFailed(code)), submitted;
      case Returned(result) =>
        var messages := ParseInfolog(result);
        ConfirmsIffMessages(result);
        if HasFailure(messages) {
          r := Ok(Outcome(operation, false, true, messages, result));
        } else if messages == [] {
          r := Ok(Outcome(operation, false, true, [UNCONFIRMED], result));
        } else {
          r := Ok(Outcome(operation, true, false, messages, result));
        }
    }
  }

  /** An answer that confirms the write: something is reported within reach, and nothing reported there fails. */
  ghost predicate Confirms(v: Json) {
    && (exists p :: IsSite(v, p))
    && (forall p :: IsSite(v, p) ==> !Fails(Report(At(v, p))))
  }

  lemma ConfirmsIffMessages(v: Json)
    ensures Confirms(v) <==> Messages(v, 0) != [] && !HasFailure(Messages(v, 0))
  {
    FailureIffSite(v);
    NoMessagesIffNoSite(v);
  }

  /** An error payload within eight levels, outside every other report, always stops the commit. */
  lemma ErrorBlocksCommit(v: Json, p: Path)
    requires |p| <= 8 && IsPlace(v, p) && IsErrorPayload(At(v, p)) && !Shadowed(v, p)
    ensures !Confirms(v)
  {
    assert IsSite(v, p) && Fails(Report(At(v, p)));
  }

  /** And so does a row whose severity is missing, is no text, or is no benign word. */
  lemma BadRowBlocksCommit(v: Json, p: Path)
    requires |p| <= 8 && IsPlace(v, p) && !Shadowed(v, p)
    requires IsRow(At(v, p)) && !IsErrorPayload(At(v, p)) && IsBadRow(At(v, p))
    ensures !Confirms(v)
  {
    hide IsRow, IsBadRow, Report, Fails;
    RowFailsIff(At(v, p));
    assert IsSite(v, p);
  }

  /** With no error payload in reach, the write is confirmed exactly when some row is, and none is bad. */
  lemma RowsConfirmIff(v: Json)
    requires forall p :: IsSite(v, p) ==> !IsErrorPayload(At(v, p))
    ensures Confirms(v) <==>
      && (exists p :: IsSite(v, p))
      && (forall p :: IsSite(v, p) ==> !IsBadRow(At(v, p)))
  {
    hide IsBadRow, Report, Fails, IsErrorPayload, IsRow;
    forall p | IsSite(v, p)
      ensures Fails(Report(At(v, p))) <==> IsBadRow(At(v, p))
    {
      RowFailsIff(At(v, p));
    }
  }

  /** The reserved name, in any mixture of cases. */
  lemma BatchIs(operation: string)
    ensures IsBatch(operation) <==>
      && |operation| == 6 && operation[0] == '$' && operation[1] in {'b', 'B'} && operation[2] in {'a', 'A'}
      && operation[3] in {'t', 'T'} && operation[4] in {'c', 'C'} && operation[5] in {'h', 'H'}
  {
    var l := Lower(operation);
    assert |"$batch"| == 6;
    assert l == "$batch" <==>
      |l| == 6 && l[0] == '$' && l[1] == 'b' && l[2] == 'a' && l[3] == 't' && l[4] == 'c' && l[5] == 'h';
  }

  const GOOD := Obj([Field("severity", Str("Info")), Field("message", Str("posted"))])
  const BAD := Obj([Field("error", Obj([]))])

  /** `v` wrapped in `n` arrays. */
  function Wrapped(v: Json, n: nat): Json {
    if n == 0 then v else Arr([Wrapped(v, n - 1)])
  }

  function Zeros(n: nat): (r: Path)
    ensures |r| == n
  {
    if n == 0 then [] else [0] + Zeros(n - 1)
  }

  /** An error inside a good row is committed over. */
  lemma ShadowedErrorCommits()
    ensures var v := Obj(GOOD.fields + [Field("details", BAD)]);
      Confirms(v) && IsPlace(v, [2]) && IsErrorPayload(At(v, [2]))
  {
    var v := Obj(GOOD.fields + [Field("details", BAD)]);
    GoodRow(v);
    assert Children(v)[2] == BAD;
    assert IsPlace(BAD, [][..]) && [2][1..] == [];
    assert IsPlace(v, [2]) && At(v, [2]) == BAD;
    BadPayload();
    assert IsSite(v, []);
    assert forall p :: IsSite(v, p) ==> p == [];
  }

  lemma BadPayload()
    ensures IsErrorPayload(BAD)
  {}

  lemma GoodRow(v: Json)
    requires v.Obj? && |v.fields| >= 2 && v.fields[..2] == GOOD.fields
    requires forall i :: 0 <= i < |v.fields| ==> v.fields[i].key != "error"
    ensures Reports(v) && !Fails(Report(v))
  {
    hide ParseSeverity;
    assert v.fields[0] == Field("severity", Str("Info")) && v.fields[1] == Field("message", Str("posted"));
    NoSuchKey(v.fields, "error");
    assert Get(v.fields, "severity") == Option.Some(Str("Info"));
    assert v.fields[1..][0] == v.fields[1];
    assert Get(v.fields, "message") == Get(v.fields[1..], "message") == Option.Some(Str("posted"));
    var sev, msg := ["severity", "Severity", "type", "TYPE"], ["message", "Message", "text", "MESSAGE"];
    assert Has(v.fields, sev[0]) && Has(v.fields, msg[0]);
    assert FirstStr(v.fields, sev) == Option.Some("Info");
    InfoIsBenign();
  }

  lemma InfoIsBenign()
    ensures ParseSeverity("Info") == Info
  {
    assert Lower("Info") == "info";
    assert Trim("Info") == "Info";
  }

  lemma {:induction false} NoSuchKey(fields: seq<Field>, key: string)
    requires forall i :: 0 <= i < |fields| ==> fields[i].key != key
    ensures Get(fields, key) == Option.None
  {
    if fields != [] {
      NoSuchKey(fields[1..], key);
    }
  }

  lemma {:induction false} WrappedAt(v: Json, n: nat, p: Path)
    requires IsPlace(Wrapped(v, n), p)
    ensures |p| < n ==> !Reports(At(Wrapped(v, n), p))
    ensures |p| == n ==> At(Wrapped(v, n), p) == v
  {
    if n > 0 && p != [] {
      assert p[0] == 0;
      WrappedAt(v, n - 1, p[1..]);
    }
  }

  lemma {:induction false} ZerosSite(n: nat)
    ensures IsPlace(Wrapped(BAD, n), Zeros(n)) && At(Wrapped(BAD, n), Zeros(n)) == BAD
    ensures !Shadowed(Wrapped(BAD, n), Zeros(n))
  {
    if n > 0 {
      ZerosSite(n - 1);
      assert Zeros(n)[1..] == Zeros(n - 1);
    }
  }

  lemma PlaceInPair(a: Json, b: Json, p: Path)
    requires IsPlace(b, p)
    ensures IsPlace(Arr([a, b]), [1] + p) && At(Arr([a, b]), [1] + p) == At(b, p)
    ensures Shadowed(Arr([a, b]), [1] + p) == Shadowed(b, p)
  {
    assert ([1] + p)[1..] == p;
  }

  lemma SiteInPair(a: Json, b: Json, p: Path)
    requires Reports(a) && IsSite(Arr([a, b]), p)
    ensures p != []
    ensures (p == [0] && At(Arr([a, b]), p) == a)
         || (p[0] == 1 && IsPlace(b, p[1..]) && At(Arr([a, b]), p) == At(b, p[1..]))
  {
    assert p != [];
    assert Children(Arr([a, b])) == [a, b];
    assert p == [p[0]] + p[1..];
    if p[0] == 0 {
      assert Children(Arr([a, b]))[p[0]] == a;
      assert !Shadowed(a, p[1..]);
    }
    assert p[0] == 1 ==> At(Arr([a, b]), p) == At(b, p[1..]);
  }

  lemma FirstInPair(a: Json, b: Json)
    requires Reports(a)
    ensures IsSite(Arr([a, b]), [0]) && At(Arr([a, b]), [0]) == a
  {
    assert [0][1..] == [];
  }

  lemma GoodIsGood()
    ensures Reports(GOOD) && !Fails(Report(GOOD))
  {
    GoodRow(GOOD);
  }

  /** The walk's reach is eight levels: an error below that, and only there, does not stop the commit. */
  lemma DeepErrorCommitsIff(n: nat)
    ensures Confirms(Arr([GOOD, Wrapped(BAD, n)])) <==> n >= 8
  {
    hide Wrapped, Fails, Report, At, Shadowed, IsPlace, Reports, Get;
    var good, deep := GOOD, Wrapped(BAD, n);
    GoodIsGood();
    FirstInPair(good, deep);
    if n < 8 {
      ZerosSite(n);
      PlaceInPair(good, deep, Zeros(n));
      BadPayload();
      ErrorBlocksCommit(Arr([good, deep]), [1] + Zeros(n));
    } else {
      forall p | IsSite(Arr([good, deep]), p)
        ensures !Fails(Report(At(Arr([good, deep]), p)))
      {
        SiteInPair(good, deep, p);
        if p[0] == 1 {
          WrappedAt(BAD, n, p[1..]);
        }
      }
    }
  }
}
