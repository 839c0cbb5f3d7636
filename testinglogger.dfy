/*
 * Model of klog's testinglogger/testinglogger.go: a logr sink that writes
 * each record through a test's Log function, with its structured fields
 * deduplicated and rendered by the Serialize module.
 */
module TestingLogger {
  import opened Serialize

  /** A call the logger makes on the test's Logger. */
  datatype Event = HelperCalled | Logged(args: seq<string>)

  /** The test's Logger (the part of testing.TB the logger uses); every call
      on it is recorded, in order. */
  class Sink {
    var events: seq<Event>

    constructor ()
      ensures events == []
    {
      events := [];
    }

    /** Marks the calling function as a helper, for line attribution. */
    method Helper()
      modifies this
      ensures events == old(events) + [HelperCalled]
    {
      events := events + [HelperCalled];
    }

    /** Writes one record made of `args`. */
    method Log(args: seq<string>)
      modifies this
      ensures events == old(events) + [Logged(args)]
    {
      events := events + [Logged(args)];
    }
  }

  // ---------------------------------------------------------------------
  // Names
  // ---------------------------------------------------------------------

  /** The prefix after appending `name` to `prefix`: the two joined by `/`,
      or `name` alone when there was no prefix. */
  function JoinName(prefix: string, name: string): (r: string)
    ensures |r| == |prefix| + (if |prefix| > 0 then 1 else 0) + |name|
    ensures r[..|prefix|] == prefix
    ensures |prefix| > 0 ==> r[|prefix|] == '/'
    ensures r[|r| - |name|..] == name
  {
    if |prefix| > 0 then prefix + "/" + name else name
  }

  /** The prefix of a logger obtained from a fresh one by WithName(names[0]),
      then WithName(names[1]), and so on. */
  function NamePath(names: seq<string>): (r: string)
    ensures names != [] ==> |r| >= |names[|names| - 1]| && r[|r| - |names[|names| - 1]|..] == names[|names| - 1]
  {
    if names == [] then "" else JoinName(NamePath(names[..|names| - 1]), names[|names| - 1])
  }

  /** `names` separated by `/`. */
  function Slashed(names: seq<string>): string
  {
    if names == [] then ""
    else if |names| == 1 then names[0]
    else names[0] + "/" + Slashed(names[1..])
  }

  /** Adding one more name to a non-empty list adds `/` and that name. */
  lemma {:induction false} SlashedSnoc(names: seq<string>, name: string)
    requires names != []
    ensures Slashed(names + [name]) == Slashed(names) + "/" + name
    decreases |names|
  {
    if |names| > 1 {
      assert (names + [name])[1..] == names[1..] + [name];
      SlashedSnoc(names[1..], name);
    } else {
      assert (names + [name])[1..] == [name];
    }
  }

  /** Successive non-empty names build the `/`-separated path of those names. */
  lemma {:induction false} NamePathIsSlashed(names: seq<string>)
    requires forall k :: 0 <= k < |names| ==> names[k] != ""
    ensures NamePath(names) == Slashed(names)
  {
    if |names| == 1 {
      assert names[..0] == [];
    } else if |names| > 1 {
      var init, last := names[..|names| - 1], names[|names| - 1];
      assert init + [last] == names;
      NamePathIsSlashed(init);
      assert |Slashed(init)| > 0 by {
        assert init[0] != "";
        SlashedStartsWithFirst(init);
      }
      SlashedSnoc(init, last);
      calc {
        NamePath(names);
        JoinName(NamePath(init), last);
        JoinName(Slashed(init), last);
        Slashed(init) + "/" + last;
      }
    }
  }

  /** A path of names starts with the first name. */
  lemma {:induction false} SlashedStartsWithFirst(names: seq<string>)
    requires names != []
    ensures |Slashed(names)| >= |names[0]| && Slashed(names)[..|names[0]|] == names[0]
  {
    if |names| > 1 {
      assert Slashed(names) == names[0] + ("/" + Slashed(names[1..]));
    }
  }

  // ---------------------------------------------------------------------
  // What a record looks like
  // ---------------------------------------------------------------------

  /** The arguments passed to the test's Log: the level tag, the prefix and a
      colon when there is a prefix, the message, and the buffer without its
      first byte when the buffer is not empty. */
  function LogArgs(what: string, prefix: string, msg: string, buffer: string): (args: seq<string>)
    ensures |args| == 2 + (if prefix != "" then 1 else 0) + (if |buffer| > 0 then 1 else 0)
    ensures args[0] == what
    ensures prefix != "" ==> args[1] == prefix + ":"
    ensures args[if prefix != "" then 2 else 1] == msg
    ensures |buffer| > 0 ==> args[|args| - 1] == buffer[1..]
  {
    [what] + (if prefix != "" then [prefix + ":"] else []) + [msg] + (if |buffer| > 0 then [buffer[1..]] else [])
  }

  /** The field text of an Info call: the context values and the call's
      key/value list, deduplicated together, rendered one after the other. */
  function InfoText(values: seq<Value>, kvList: seq<Value>, p: Printer): (r: string)
    ensures r != [] ==> r[0] == ' '
  {
    Rendered(Trimmed([values, kvList])[0], p) + Rendered(Trimmed([values, kvList])[1], p)
  }

  /** The field text of an Error call: the `err` field, outside
      deduplication, then the fields of InfoText. */
  function ErrorText(err: Value, values: seq<Value>, kvList: seq<Value>, p: Printer): (r: string)
    ensures |r| > 0 && r[0] == ' '
  {
    Rendered([Str("err"), err], p) + InfoText(values, kvList, p)
  }

  /** Rendering the two deduplicated lists into one buffer is rendering the
      single list they form together. */
  lemma InfoTextOnePass(values: seq<Value>, kvList: seq<Value>, p: Printer)
    ensures InfoText(values, kvList, p) ==
      Rendered(Trimmed([values, kvList])[0] + Trimmed([values, kvList])[1], p)
  {
    RenderedAppend(Trimmed([values, kvList])[0], Trimmed([values, kvList])[1], p);
  }

  /** The field text is empty exactly when there are no context values and no
      call values; otherwise it starts with the separator space that the
      record drops. */
  lemma InfoTextEmpty(values: seq<Value>, kvList: seq<Value>, p: Printer)
    ensures InfoText(values, kvList, p) == [] <==> values == [] && kvList == []
    ensures InfoText(values, kvList, p) != [] ==> InfoText(values, kvList, p)[0] == ' '
  {
    var lists := [values, kvList];
    if kvList != [] {
      KeyOfNonEmpty(kvList);
      TrimmedKeyPlacement(lists, 1, kvList[0]);
      assert Trimmed(lists)[1] != [];
    } else if values != [] {
      KeyOfNonEmpty(values);
      TrimmedKeyPlacement(lists, 0, values[0]);
      assert Trimmed(lists)[0] != [];
    } else {
      assert ListKeys(values) == {} && ListKeys(kvList) == {};
      assert KeysFrom(lists, 2) == {};
      assert Trimmed(lists)[0] == [] && Trimmed(lists)[1] == [];
    }
  }

  /** The first element of a non-empty list is one of its keys. */
  lemma KeyOfNonEmpty(kvs: seq<Value>)
    requires kvs != []
    ensures kvs[0] in ListKeys(kvs)
  {
    PairAt(kvs, Nil, 0);
    assert Pairs(kvs, Nil)[0] in Pairs(kvs, Nil);
  }

  /** A key given at the call site replaces the context value with the same
      key: the context list loses it and the call list keeps it. */
  lemma CallSiteOverridesContext(values: seq<Value>, kvList: seq<Value>, k: Value)
    requires k in ListKeys(kvList)
    ensures k !in ListKeys(Trimmed([values, kvList])[0])
    ensures k in ListKeys(Trimmed([values, kvList])[1])
  {
    TrimmedKeyPlacement([values, kvList], 0, k);
    TrimmedKeyPlacement([values, kvList], 1, k);
  }

  /** Context values pod=nginx and a call with pod=busybox log only
      pod="busybox". */
  lemma PodOverride(p: Printer)
    requires p.keyStr(Str("pod")) == "pod" && p.quote("busybox") == "\"busybox\""
    ensures LogArgs("INFO", "", "started", InfoText([Str("pod"), Str("nginx")], [Str("pod"), Str("busybox")], p))
      == ["INFO", "started", "pod=\"busybox\""]
  {
    var kvList := [Str("pod"), Str("busybox")];
    PodTrimmed();
    assert InfoText([Str("pod"), Str("nginx")], kvList, p) == Rendered([], p) + Rendered(kvList, p);
    assert kvList[2..] == [];
    assert Rendered(kvList, p) == Field(Str("pod"), Str("busybox"), p) == " pod=\"busybox\"";
    assert InfoText([Str("pod"), Str("nginx")], kvList, p)[1..] == "pod=\"busybox\"";
  }

  /** Deduplicating pod=nginx against a later pod=busybox drops the former. */
  lemma PodTrimmed()
    ensures Trimmed([[Str("pod"), Str("nginx")], [Str("pod"), Str("busybox")]])
      == [[], [Str("pod"), Str("busybox")]]
  {
    var values := [Str("pod"), Str("nginx")];
    var kvList := [Str("pod"), Str("busybox")];
    var lists := [values, kvList];
    assert Pairs(values, Nil) == [Pair(Str("pod"), Str("nginx"))];
    assert Pairs(kvList, Nil) == [Pair(Str("pod"), Str("busybox"))];
    assert KeysFrom(lists, 2) == {};
    assert KeysFrom(lists, 1) == {Str("pod")};
    var pod := Pair(Str("pod"), Str("busybox"));
    assert Survivors([Pair(Str("pod"), Str("nginx"))], {Str("pod")}) == [];
    assert Survivors([pod], {}) == [pod] by {
      assert Keys([pod][1..]) == {};
    }
    assert Trimmed(lists)[0] == TrimmedList(lists, 0) == [];
    assert Trimmed(lists)[1] == TrimmedList(lists, 1) == kvList;
  }

  /** An Error record always has fields: first the `err` field, and then,
      besides it, an `err` key given at the call site survives deduplication
      and is written a second time. */
  lemma ErrorTextFields(err: Value, values: seq<Value>, kvList: seq<Value>, p: Printer)
    ensures ErrorText(err, values, kvList, p) == Field(Str("err"), err, p) + InfoText(values, kvList, p)
    ensures ErrorText(err, values, kvList, p)[0] == ' '
    ensures Str("err") in ListKeys(kvList) ==> Str("err") in ListKeys(Trimmed([values, kvList])[1])
  {
    assert [Str("err"), err][2..] == [];
    if Str("err") in ListKeys(kvList) {
      CallSiteOverridesContext(values, kvList, Str("err"));
    }
  }

  /** The buffer Info fills holds InfoText. */
  lemma InfoBuffer(values: seq<Value>, kvList: seq<Value>, p: Printer, trimmed: seq<seq<Value>>, text: string)
    requires trimmed == Trimmed([values, kvList])
    requires text == [] + Rendered(trimmed[0], p) + Rendered(trimmed[1], p)
    ensures text == InfoText(values, kvList, p)
  {
  }

  /** The buffer Error fills holds ErrorText. */
  lemma ErrorBuffer(err: Value, values: seq<Value>, kvList: seq<Value>, p: Printer,
                    trimmed: seq<seq<Value>>, text: string)
    requires trimmed == Trimmed([values, kvList])
    requires text == [] + Rendered([Str("err"), err], p) + Rendered(trimmed[0], p) + Rendered(trimmed[1], p)
    ensures text == ErrorText(err, values, kvList, p)
  {
  }

  // ---------------------------------------------------------------------
  // The logger
  // ---------------------------------------------------------------------

  /** Copies a slice into a freshly allocated one of the same length. */
  method CopySlice(a: array<Value>) returns (b: array<Value>)
    ensures fresh(b) && b[..] == a[..]
  {
    b := new Value[a.Length];
    var n := 0;
    while n < a.Length
      invariant 0 <= n <= a.Length
      invariant b[..n] == a[..n]
    {
      b[n] := a[n];
      n := n + 1;
    }
    assert b[..] == b[..a.Length];
  }

  /** Go's append onto a slice whose capacity equals its length: the slice
      itself when nothing is appended, otherwise a fresh array holding both. */
  method AppendValues(a: array<Value>, kvList: seq<Value>) returns (r: array<Value>)
    ensures r[..] == a[..] + kvList
    ensures |kvList| == 0 ==> r == a
    ensures |kvList| > 0 ==> fresh(r)
  {
    if |kvList| == 0 {
      r := a;
      assert a[..] + kvList == a[..];
      return;
    }
    r := new Value[a.Length + |kvList|];
    var n := 0;
    while n < r.Length
      invariant 0 <= n <= r.Length
      invariant r[..n] == (a[..] + kvList)[..n]
    {
      if n < a.Length {
        r[n] := a[n];
      } else {
        r[n] := kvList[n - a.Length];
      }
      n := n + 1;
    }
    assert r[..] == r[..r.Length];
  }

  /** A logger: the test's Logger, the name prefix and the context values.
      Every derived logger gets its own copy of the values. */
  class TLogger {
    const sink: Sink
    var prefix: string
    var values: array<Value>

    constructor (l: Sink, prefix: string, values: array<Value>)
      ensures this.sink == l && this.prefix == prefix && this.values == values
    {
      this.sink := l;
      this.prefix := prefix;
      this.values := values;
    }

    /** A copy of this logger whose values live in a fresh array. */
    method Clone() returns (c: TLogger)
      ensures fresh(c) && fresh(c.values)
      ensures c.sink == sink && c.prefix == prefix && c.values[..] == values[..]
    {
      var vs := CopySlice(values);
      c := new TLogger(sink, prefix, vs);
    }

    /** A logger whose prefix has `name` appended after a `/`; this logger
      is left as it was. */
    method WithName(name: string) returns (r: TLogger)
      ensures fresh(r) && fresh(r.values)
      ensures r.sink == sink && r.prefix == JoinName(prefix, name) && r.values[..] == values[..]
    {
      r := Clone();
      if |prefix| > 0 {
        r.prefix := prefix + "/";
      }
      r.prefix := r.prefix + name;
    }

    /** A logger whose context values are these followed by `kvList`; this
      logger is left as it was. */
    method WithValues(kvList: seq<Value>) returns (r: TLogger)
      ensures fresh(r) && fresh(r.values)
      ensures r.sink == sink && r.prefix == prefix && r.values[..] == values[..] + kvList
    {
      r := Clone();
      r.values := AppendValues(r.values, kvList);
    }

    /** Verbosity levels are ignored: the logger itself. */
    function V(level: int): (r: TLogger)
      ensures r == this
    {
      this
    }

    /** Every level is enabled. */
    function Enabled(): (r: bool)
      ensures r
    {
      true
    }

    /** Writes one record: marks a helper, then passes the level tag, the
      prefix, the message and the fields (without the leading space) to the
      test's Log. */
    method log(what: string, msg: string, buffer: Buffer)
      modifies sink
      ensures sink.events == old(sink.events) + [HelperCalled, Logged(LogArgs(what, prefix, msg, buffer.text))]
    {
      sink.Helper();
      var args := [what];
      if prefix != "" {
        args := args + [prefix + ":"];
      }
      args := args + [msg];
      var n := buffer.Len();
      if n > 0 {
        args := args + [buffer.text[1..]];
      }
      assert args == LogArgs(what, prefix, msg, buffer.text);
      sink.Log(args);
    }

    /** Logs `msg` with the context values and `kvList`, deduplicated so that
      a call-site key replaces a context key. */
    method Info(msg: string, kvList: seq<Value>, p: Printer)
      modifies sink
      ensures sink.events == old(sink.events) +
        [HelperCalled, HelperCalled, Logged(LogArgs("INFO", prefix, msg, InfoText(values[..], kvList, p)))]
    {
      sink.Helper();
      var buffer := new Buffer();
      var trimmed := TrimDuplicates([values[..], kvList]);
      KVListFormat(buffer, trimmed[0], p);
      KVListFormat(buffer, trimmed[1], p);
      InfoBuffer(values[..], kvList, p, trimmed, buffer.text);
      log("INFO", msg, buffer);
    }

    /** Logs `msg` with an `err` field first, then the fields Info would write. */
    method Error(err: Value, msg: string, kvList: seq<Value>, p: Printer)
      requires err.Err? || err.Nil?
      modifies sink
      ensures sink.events == old(sink.events) +
        [HelperCalled, HelperCalled, Logged(LogArgs("ERROR", prefix, msg, ErrorText(err, values[..], kvList, p)))]
    {
      sink.Helper();
      var buffer := new Buffer();
      KVListFormat(buffer, [Str("err"), err], p);
      var trimmed := TrimDuplicates([values[..], kvList]);
      KVListFormat(buffer, trimmed[0], p);
      KVListFormat(buffer, trimmed[1], p);
      ErrorBuffer(err, values[..], kvList, p, trimmed, buffer.text);
      log("ERROR", msg, buffer);
    }
  }

  /** Constructs a logger for the given test Logger, without prefix or values. */
  method New(l: Sink) returns (t: TLogger)
    ensures fresh(t) && t.sink == l && t.prefix == "" && t.values[..] == []
  {
    var none := new Value[0];
    t := new TLogger(l, "", none);
  }

  /** Two loggers derived by WithValues from one parent each see the parent's
      values followed by their own, and nothing of the other's. */
  method DeriveSiblings(parent: TLogger, kv1: seq<Value>, kv2: seq<Value>) returns (c1: TLogger, c2: TLogger)
    ensures c1.values[..] == parent.values[..] + kv1
    ensures c2.values[..] == parent.values[..] + kv2
    ensures c1.values != c2.values && c1.values != parent.values && c2.values != parent.values
  {
    c1 := parent.WithValues(kv1);
    c2 := parent.WithValues(kv2);
  }
}
