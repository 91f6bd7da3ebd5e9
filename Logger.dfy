/** The logger (internal/infrastructure/logger/logger.go): console entries, rows in the
    `system_logs` table marked permanent by their action, the merge of an error into the caller's
    detail map, and the request-logging middleware with its status-capturing response writer. */
module Logger {
  import opened Base
  import opened Utils

  const InfoLevel: string := "INFO"
  const ErrorLevel: string := "ERROR"
  /** The detail keys the logger reads or writes. */
  const ErrorKey: string := "error"
  const ActionKey: string := "action"
  /** The action and message of the request log line. */
  const RequestAction: string := "HTTP_REQUEST"
  const RequestMessage: string := "HTTP Request"

  /** A `zap.Field`. */
  datatype Field = Field(key: string, value: Value)

  /** A line written to the console. */
  datatype Entry = Entry(level: string, message: string, fields: seq<Field>)

  /** A row of `system_logs`; the details are stored as their JSON, modelled here as the map. */
  datatype LogRow = LogRow(level: string, message: string, details: map<string, Value>, permanent: bool)

  // ---- Permanence ----

  /** `strings.ToUpper` on one character (ASCII letters only). */
  function UpperChar(c: char): char {
    if 'a' <= c <= 'z' then (c as int - 'a' as int + 'A' as int) as char else c
  }

  /** `strings.ToUpper`. */
  function ToUpper(s: string): (u: string)
    ensures |u| == |s| && forall i :: 0 <= i < |s| ==> u[i] == UpperChar(s[i])
  {
    seq(|s|, i requires 0 <= i < |s| => UpperChar(s[i]))
  }

  /** The `n` characters of `s` from `i` on. */
  function Window(s: string, i: nat, n: nat): string
    requires i + n <= |s|
  {
    s[i..i + n]
  }

  /** `strings.Contains`. */
  predicate Contains(s: string, sub: string) {
    exists i: nat :: i + |sub| <= |s| && Window(s, i, |sub|) == sub
  }

  /** The words that make a log entry permanent. */
  predicate PermanentAction(action: string) {
    var u := ToUpper(action);
    Contains(u, "CREATE") || Contains(u, "UPDATE") || Contains(u, "DELETE")
  }

  /** `saveToDB`'s classification: the entry is permanent when its "action" is a string that
      names a create, update or delete. */
  predicate IsPermanent(details: map<string, Value>) {
    ActionKey in details && details[ActionKey].Str? && PermanentAction(details[ActionKey].s)
  }

  /** Upper-casing a piece of a string is the same piece of the upper-cased string. */
  lemma UpperSlice(s: string, i: nat, j: nat)
    requires i <= j <= |s|
    ensures ToUpper(s)[i..j] == ToUpper(s[i..j])
  {
    assert forall k :: 0 <= k < j - i ==> ToUpper(s)[i..j][k] == ToUpper(s[i..j])[k];
  }

  /** The classification ignores case: an action holding "create", "update" or "delete" in any
      mix of cases, anywhere, is permanent. */
  lemma PermanentAnyCase(action: string, i: nat, word: string)
    requires word == "CREATE" || word == "UPDATE" || word == "DELETE"
    requires i + |word| <= |action| && ToUpper(action[i..i + |word|]) == word
    ensures PermanentAction(action)
    ensures IsPermanent(map[ActionKey := Str(action)])
  {
    UpperSlice(action, i, i + |word|);
    assert Window(ToUpper(action), i, |word|) == word;
  }

  /** A string lacking one of `word`'s characters does not contain `word`. */
  lemma Absent(s: string, word: string, j: nat)
    requires j < |word| && word[j] !in s
    ensures !Contains(s, word)
  {
    forall i: nat | i + |word| <= |s|
      ensures Window(s, i, |word|) != word
    {
      assert Window(s, i, |word|)[j] == s[i + j];
    }
  }

  /** An action without lower-case letters is its own upper case. */
  lemma UpperOfUpper(s: string)
    requires forall i :: 0 <= i < |s| ==> !('a' <= s[i] <= 'z')
    ensures ToUpper(s) == s
  {
  }

  /** The creations, status updates and deletions the services log are kept permanently. */
  lemma PermanentActions()
    ensures PermanentAction("TASK_CREATE") && PermanentAction("USER_CREATE")
    ensures PermanentAction("TASK_STATUS_UPDATE") && PermanentAction("USER_DELETE")
  {
    assert Window(ToUpper("TASK_CREATE"), 5, 6) == "CREATE";
    assert Window(ToUpper("USER_CREATE"), 5, 6) == "CREATE";
    assert Window(ToUpper("TASK_STATUS_UPDATE"), 12, 6) == "UPDATE";
    assert Window(ToUpper("USER_DELETE"), 5, 6) == "DELETE";
  }

  /** An action in which neither "C" nor "D" occurs is not kept permanently. */
  lemma Transient(action: string)
    requires forall i :: 0 <= i < |action| ==> !('a' <= action[i] <= 'z')
    requires 'C' !in action && 'D' !in action
    ensures !PermanentAction(action)
  {
    UpperOfUpper(action);
    Absent(action, "CREATE", 0);
    Absent(action, "UPDATE", 2);
    Absent(action, "DELETE", 0);
  }

  /** Assignments, unassignments and request lines are not kept permanently. */
  lemma TransientActions()
    ensures !PermanentAction("TASK_ASSIGN") && !PermanentAction("TASK_UNASSIGN")
    ensures !PermanentAction(RequestAction)
  {
    Transient("TASK_ASSIGN");
    Transient("TASK_UNASSIGN");
    Transient(RequestAction);
  }

  // ---- Error's detail merge ----

  /** The details `Error` logs: the caller's map, or a fresh empty one for nil, with the error's
      text under "error" when there is an error. */
  function MergeError(details: Option<map<string, Value>>, err: Option<string>): (m: map<string, Value>)
    ensures err.Some? ==> ErrorKey in m && m[ErrorKey] == Str(err.value)
    ensures err.Some? ==> m.Keys == (if details.Some? then details.value.Keys else {}) + {ErrorKey}
    ensures err.None? ==> m == if details.Some? then details.value else map[]
    ensures details.Some? ==> forall k :: k in details.value && k != ErrorKey ==> k in m && m[k] == details.value[k]
  {
    var base := if details.Some? then details.value else map[];
    if err.Some? then base[ErrorKey := Str(err.value)] else base
  }

  /** `fields` has one field per entry of `details`, in some order. */
  predicate FieldsOf(fields: seq<Field>, details: map<string, Value>) {
    && |fields| == |details.Keys|
    && (forall i :: 0 <= i < |fields| ==> fields[i].key in details && details[fields[i].key] == fields[i].value)
    && (forall i, j :: 0 <= i < j < |fields| ==> fields[i].key != fields[j].key)
  }

  /** A Go map: a reference the caller and the logger share. */
  class Details {
    var entries: map<string, Value>

    constructor (entries: map<string, Value>)
      ensures this.entries == entries
    {
      this.entries := entries;
    }
  }

  /** `convertToZapFields`: one field per entry, in the map's (unspecified) iteration order. */
  method ConvertToZapFields(details: map<string, Value>) returns (fields: seq<Field>)
    ensures FieldsOf(fields, details)
    ensures forall k :: k in details ==> exists i :: 0 <= i < |fields| && fields[i] == Field(k, details[k])
  {
    fields := [];
    var remaining := details.Keys;
    while remaining != {}
      invariant remaining <= details.Keys
      invariant |fields| + |remaining| == |details.Keys|
      invariant forall i :: 0 <= i < |fields| ==> fields[i].key in details && details[fields[i].key] == fields[i].value
      invariant forall i :: 0 <= i < |fields| ==> fields[i].key !in remaining
      invariant forall i, j :: 0 <= i < j < |fields| ==> fields[i].key != fields[j].key
      invariant forall k :: k in details && k !in remaining ==> exists i :: 0 <= i < |fields| && fields[i] == Field(k, details[k])
      decreases |remaining|
    {
      var k :| k in remaining;
      var prev := fields;
      fields := fields + [Field(k, details[k])];
      remaining := remaining - {k};
      forall k' | k' in details && k' !in remaining
        ensures exists i :: 0 <= i < |fields| && fields[i] == Field(k', details[k'])
      {
        if k' == k {
          assert fields[|prev|] == Field(k, details[k]);
        } else {
          var i :| 0 <= i < |prev| && prev[i] == Field(k', details[k']);
          assert fields[i] == prev[i];
        }
      }
    }
  }

  // ---- The logger ----

  /** `ZapLogger`: `hasDb` is whether it was given a database; `console` is what zap printed and
      `saved` the rows inserted into `system_logs`. */
  class ZapLogger {
    const hasDb: bool
    var console: seq<Entry>
    var saved: seq<LogRow>

    constructor (hasDb: bool)
      ensures this.hasDb == hasDb && console == [] && saved == []
    {
      this.hasDb := hasDb;
      console := [];
      saved := [];
    }

    /** `saveToDB`: nothing without a database; otherwise one row, marked permanent by its
      action, unless the insert fails (which is only printed). */
    method SaveToDB(level: string, message: string, details: map<string, Value>, execFails: bool)
      modifies this
      ensures saved == old(saved) + if hasDb && !execFails then [LogRow(level, message, details, IsPermanent(details))] else []
      ensures console == old(console)
    {
      if !hasDb {
        return;
      }
      var permanent := false;
      if ActionKey in details && details[ActionKey].Str? {
        var upper := ToUpper(details[ActionKey].s);
        if Contains(upper, "CREATE") || Contains(upper, "UPDATE") || Contains(upper, "DELETE") {
          permanent := true;
        }
      }
      if !execFails {
        saved := saved + [LogRow(level, message, details, permanent)];
      }
    }

    /** `Info`: a console entry with one field per detail, then the row. A nil map logs no
      fields. */
    method Info(message: string, details: Option<map<string, Value>>, execFails: bool)
      modifies this
      ensures |console| == |old(console)| + 1 && console[..|old(console)|] == old(console)
      ensures var e := console[|old(console)|];
              e.level == InfoLevel && e.message == message && FieldsOf(e.fields, if details.Some? then details.value else map[])
      ensures var d := if details.Some? then details.value else map[];
              saved == old(saved) + if hasDb && !execFails then [LogRow(InfoLevel, message, d, IsPermanent(d))] else []
    {
      var d := if details.Some? then details.value else map[];
      var fields := ConvertToZapFields(d);
      console := console + [Entry(InfoLevel, message, fields)];
      SaveToDB(InfoLevel, message, d, execFails);
    }

    /** `Error`: a nil map is replaced by a fresh one; the error's text is written into the map,
      so into the caller's map when there is one; then the console entry and the row. */
    method Error(message: string, err: Option<string>, details: Details?, execFails: bool) returns (used: Details)
      modifies this, details
      ensures details != null ==> used == details
      ensures details == null ==> fresh(used)
      ensures used.entries == MergeError(if details != null then Some(old(details.entries)) else None, err)
      ensures |console| == |old(console)| + 1 && console[..|old(console)|] == old(console)
      ensures var e := console[|old(console)|];
              e.level == ErrorLevel && e.message == message && FieldsOf(e.fields, used.entries)
      ensures saved == old(saved) + if hasDb && !execFails then [LogRow(ErrorLevel, message, used.entries, IsPermanent(used.entries))] else []
    {
      if details == null {
        used := new Details(map[]);
      } else {
        used := details;
      }
      if err.Some? {
        used.entries := used.entries[ErrorKey := Str(err.value)];
      }
      var fields := ConvertToZapFields(used.entries);
      console := console + [Entry(ErrorLevel, message, fields)];
      SaveToDB(ErrorLevel, message, used.entries, execFails);
    }

    /** `Middleware` for one request: the next handler runs against a status-capturing writer and
      makes the `WriteHeader` calls `codes`; then one "HTTP Request" line is logged with the
      captured status. */
    method Middleware(w: ResponseWriter, request: RequestInfo, codes: seq<int>, execFails: bool)
      modifies this, w
      ensures w.statuses == old(w.statuses) + codes
      ensures var d := RequestDetails(request, if codes == [] then StatusOK else codes[|codes| - 1]);
              saved == old(saved) + if hasDb && !execFails then [LogRow(InfoLevel, RequestMessage, d, false)] else []
      ensures w.header == old(w.header) && w.body == old(w.body)
      ensures |console| == |old(console)| + 1 && console[..|old(console)|] == old(console)
      ensures var e := console[|old(console)|];
              && e.level == InfoLevel && e.message == RequestMessage
              && FieldsOf(e.fields, RequestDetails(request, if codes == [] then StatusOK else codes[|codes| - 1]))
    {
      var rw := new StatusRecorder(w);
      rw.Serve(codes);
      var d := RequestDetails(request, rw.statusCode);
      RequestNotPermanent(request, rw.statusCode);
      Info(RequestMessage, Some(d), execFails);
    }
  }

  /** What the request log line records about a request; `durationMs` is the duration in whole
      milliseconds. */
  datatype RequestInfo = RequestInfo(verb: string, path: string, duration: string, durationMs: int, ip: string)

  /** The details of the request log line. */
  function RequestDetails(r: RequestInfo, status: int): map<string, Value> {
    map["method" := Str(r.verb), "path" := Str(r.path), "status" := Num(status),
        "duration" := Str(r.duration), "duration_ms" := Num(r.durationMs), "ip" := Str(r.ip),
        ActionKey := Str(RequestAction)]
  }

  /** Request log lines are never kept permanently. */
  lemma RequestNotPermanent(r: RequestInfo, status: int)
    ensures !IsPermanent(RequestDetails(r, status))
    ensures RequestDetails(r, status)["status"] == Num(status)
  {
    TransientActions();
  }

  /** `responseWriter`: passes every `WriteHeader` on and remembers the last status written. */
  class StatusRecorder {
    const inner: ResponseWriter
    var statusCode: int

    /** The status defaults to 200. */
    constructor (inner: ResponseWriter)
      ensures this.inner == inner && statusCode == StatusOK
    {
      this.inner := inner;
      statusCode := StatusOK;
    }

    method WriteHeader(code: int)
      modifies this, inner
      ensures statusCode == code
      ensures inner.statuses == old(inner.statuses) + [code]
      ensures inner.header == old(inner.header) && inner.body == old(inner.body)
    {
      statusCode := code;
      inner.WriteHeader(code);
    }

    /** The next handler, as the `WriteHeader` calls it makes: afterwards the writer reports
      the last status written, or the one it reported before when there was none. */
    method Serve(codes: seq<int>)
      modifies this, inner
      ensures statusCode == if codes == [] then old(statusCode) else codes[|codes| - 1]
      ensures inner.statuses == old(inner.statuses) + codes
      ensures inner.header == old(inner.header) && inner.body == old(inner.body)
    {
      var k := 0;
      while k < |codes|
        invariant 0 <= k <= |codes|
        invariant statusCode == if k == 0 then old(statusCode) else codes[k - 1]
        invariant inner.statuses == old(inner.statuses) + codes[..k]
        invariant inner.header == old(inner.header) && inner.body == old(inner.body)
      {
        WriteHeader(codes[k]);
        assert codes[..k + 1] == codes[..k] + [codes[k]];
        k := k + 1;
      }
      assert codes[..k] == codes;
    }
  }
}
