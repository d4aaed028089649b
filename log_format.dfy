/**
 * The `{time}` placeholder rewrite that both sink configurators apply to their
 * message format before handing it to the logging backend.
 */
module LogFormat {
  import opened Wrappers
  import opened ConfigValues

  const TimeToken: string := "{time}"

  /** What every `{time}` becomes: the placeholder with the configured timestamp format. */
  function TimeReplacement(timeFormat: string): string {
    "{time:" + timeFormat + "}"
  }

  /** `format.replace("{time}", TimeReplacement(timeFormat))`: a left-to-right scan. */
  function ReplaceTime(format: string, timeFormat: string): string
    decreases |format|
  {
    if |format| < |TimeToken| then format
    else if format[..|TimeToken|] == TimeToken then
      TimeReplacement(timeFormat) + ReplaceTime(format[|TimeToken|..], timeFormat)
    else [format[0]] + ReplaceTime(format[1..], timeFormat)
  }

  /*
   * The reference: a format is text with no `{time}` in it, separated by
   * `{time}` tokens; the rewrite puts the replacement at those separators.
   */

  ghost predicate TokenAt(s: string, k: int) {
    0 <= k && k + |TimeToken| <= |s| && s[k..k + |TimeToken|] == TimeToken
  }

  ghost predicate TokenFree(s: string) {
    forall k :: !TokenAt(s, k)
  }

  ghost predicate AllTokenFree(parts: seq<string>) {
    forall i :: 0 <= i < |parts| ==> TokenFree(parts[i])
  }

  /** `sep.join(parts)`. */
  function Join(parts: seq<string>, sep: string): string {
    if |parts| == 0 then ""
    else if |parts| == 1 then parts[0]
    else parts[0] + sep + Join(parts[1..], sep)
  }

  /** `s.split("{time}")`. */
  function Pieces(s: string): (r: seq<string>)
    decreases |s|
    ensures |r| >= 1 && r[0] <= s
  {
    if |s| < |TimeToken| then [s]
    else if s[..|TimeToken|] == TimeToken then [""] + Pieces(s[|TimeToken|..])
    else
      var p := Pieces(s[1..]);
      [[s[0]] + p[0]] + p[1..]
  }

  lemma {:induction false} JoinPieces(s: string)
    ensures Join(Pieces(s), TimeToken) == s
    decreases |s|
  {
    if |s| < |TimeToken| {
    } else if s[..|TimeToken|] == TimeToken {
      JoinPieces(s[|TimeToken|..]);
      assert s == TimeToken + s[|TimeToken|..];
    } else {
      var p := Pieces(s[1..]);
      JoinPieces(s[1..]);
      var r := [[s[0]] + p[0]] + p[1..];
      assert r[1..] == p[1..];
      if |p| == 1 {
        assert s == [s[0]] + s[1..];
      } else {
        assert Join(p, TimeToken) == p[0] + TimeToken + Join(p[1..], TimeToken);
        assert s == [s[0]] + s[1..];
      }
    }
  }

  lemma {:induction false} PiecesTokenFree(s: string)
    ensures AllTokenFree(Pieces(s))
    decreases |s|
  {
    if |s| < |TimeToken| {
      assert forall k :: !TokenAt(s, k);
    } else if s[..|TimeToken|] == TimeToken {
      PiecesTokenFree(s[|TimeToken|..]);
      var r := Pieces(s);
      assert r[1..] == Pieces(s[|TimeToken|..]);
      assert TokenFree(r[0]);
    } else {
      var p := Pieces(s[1..]);
      PiecesTokenFree(s[1..]);
      var q := [s[0]] + p[0];
      assert q <= s;
      forall k ensures !TokenAt(q, k) {
        if k < 0 || k + |TimeToken| > |q| {
        } else if k == 0 {
          assert q[..|TimeToken|] == s[..|TimeToken|];
        } else {
          assert q[k..k + |TimeToken|] == p[0][k - 1..k - 1 + |TimeToken|];
          assert !TokenAt(p[0], k - 1);
        }
      }
      var r := Pieces(s);
      assert r == [q] + p[1..];
      forall i | 0 <= i < |r| ensures TokenFree(r[i]) {
        if i > 0 { assert r[i] == p[i]; }
      }
    }
  }

  lemma {:induction false} ReplaceIsJoin(s: string, timeFormat: string)
    ensures ReplaceTime(s, timeFormat) == Join(Pieces(s), TimeReplacement(timeFormat))
    decreases |s|
  {
    var rep := TimeReplacement(timeFormat);
    if |s| < |TimeToken| {
      assert Pieces(s) == [s];
    } else if s[..|TimeToken|] == TimeToken {
      var p := Pieces(s[|TimeToken|..]);
      ReplaceIsJoin(s[|TimeToken|..], timeFormat);
      assert Pieces(s) == [""] + p;
      assert ([""] + p)[1..] == p;
      assert Join([""] + p, rep) == "" + rep + Join(p, rep);
      assert ReplaceTime(s, timeFormat) == rep + ReplaceTime(s[|TimeToken|..], timeFormat);
    } else {
      var p := Pieces(s[1..]);
      ReplaceIsJoin(s[1..], timeFormat);
      var r := [[s[0]] + p[0]] + p[1..];
      assert Pieces(s) == r;
      assert ReplaceTime(s, timeFormat) == [s[0]] + Join(p, rep);
      if |p| == 1 {
        assert Join(p, rep) == p[0];
        assert Join(r, rep) == [s[0]] + p[0];
      } else {
        assert r[1..] == p[1..];
        var tail := Join(p[1..], rep);
        assert Join(p, rep) == p[0] + rep + tail;
        assert Join(r, rep) == ([s[0]] + p[0]) + rep + tail;
        assert [s[0]] + (p[0] + rep + tail) == ([s[0]] + p[0]) + rep + tail;
      }
    }
  }

  /**
   * No `{time}` starts inside a `{time}`-free prefix `s[..y]` of `s` that ends
   * where the text ends or where a `{time}` begins.
   */
  lemma NoEarlierToken(s: string, x: nat, y: nat)
    requires x < y <= |s|
    requires TokenFree(s[..y])
    requires y == |s| || TokenAt(s, y)
    ensures !TokenAt(s, x)
  {
    if x + |TimeToken| <= y {
      assert s[..y][x..x + |TimeToken|] == s[x..x + |TimeToken|];
      assert !TokenAt(s[..y], x);
    } else if y < |s| {
      assert s[y] == s[y..y + |TimeToken|][0] == '{';
      assert x + |TimeToken| <= |s| ==> s[x..x + |TimeToken|][y - x] == s[y];
      assert TimeToken[y - x] != '{';
    }
  }

  lemma JoinHead(parts: seq<string>, sep: string)
    requires |parts| >= 1
    ensures var s := Join(parts, sep);
            |parts[0]| <= |s| && s[..|parts[0]|] == parts[0]
            && (|parts| == 1 ==> s == parts[0])
            && (|parts| > 1 ==> s == parts[0] + sep + Join(parts[1..], sep))
  {
  }

  /** Writing a text as `{time}`-free pieces separated by `{time}` can be done in one way only. */
  lemma {:induction false} DecompositionUnique(ps: seq<string>, qs: seq<string>)
    requires |ps| >= 1 && |qs| >= 1
    requires AllTokenFree(ps) && AllTokenFree(qs)
    requires Join(ps, TimeToken) == Join(qs, TimeToken)
    ensures ps == qs
    decreases |ps|
  {
    var s := Join(ps, TimeToken);
    var a, b := ps[0], qs[0];
    JoinHead(ps, TimeToken);
    JoinHead(qs, TimeToken);
    assert |ps| > 1 ==> TokenAt(s, |a|) by {
      if |ps| > 1 { assert s[|a|..|a| + |TimeToken|] == TimeToken; }
    }
    assert |qs| > 1 ==> TokenAt(s, |b|) by {
      if |qs| > 1 { assert s[|b|..|b| + |TimeToken|] == TimeToken; }
    }
    assert TokenFree(a) && TokenFree(b);
    assert |a| == |b| by {
      if |a| < |b| {
        NoEarlierToken(s, |a|, |b|);
      } else if |b| < |a| {
        NoEarlierToken(s, |b|, |a|);
      }
    }
    assert a == b;
    if |ps| == 1 || |qs| == 1 {
      assert |ps| == 1 && |qs| == 1;
    } else {
      var n := |a| + |TimeToken|;
      assert Join(ps[1..], TimeToken) == s[n..];
      assert Join(qs[1..], TimeToken) == s[n..];
      assert AllTokenFree(ps[1..]) by {
        forall i | 0 <= i < |ps| - 1 ensures TokenFree(ps[1..][i]) { assert ps[1..][i] == ps[i + 1]; }
      }
      assert AllTokenFree(qs[1..]) by {
        forall i | 0 <= i < |qs| - 1 ensures TokenFree(qs[1..][i]) { assert qs[1..][i] == qs[i + 1]; }
      }
      DecompositionUnique(ps[1..], qs[1..]);
      assert ps == [a] + ps[1..] && qs == [b] + qs[1..];
    }
  }

  /**
   * The rewrite replaces every `{time}` and leaves all other text unchanged:
   * whenever `format` is `{time}`-free pieces separated by `{time}`, the result
   * is the same pieces separated by the replacement.
   */
  lemma RewriteReplacesEveryToken(format: string, timeFormat: string, pieces: seq<string>)
    requires |pieces| >= 1 && AllTokenFree(pieces)
    requires Join(pieces, TimeToken) == format
    ensures ReplaceTime(format, timeFormat) == Join(pieces, TimeReplacement(timeFormat))
  {
    JoinPieces(format);
    PiecesTokenFree(format);
    DecompositionUnique(pieces, Pieces(format));
    ReplaceIsJoin(format, timeFormat);
  }

  /** A format with no `{time}` in it comes back unchanged. */
  lemma NoTokenUnchanged(format: string, timeFormat: string)
    requires TokenFree(format)
    ensures ReplaceTime(format, timeFormat) == format
  {
    assert AllTokenFree([format]);
    RewriteReplacesEveryToken(format, timeFormat, [format]);
  }

  /*
   * The formats the two sink configurators register.
   */

  const DefaultTimeFormat: string := "YYYY-MM-DD HH:mm:ss.SSS"

  const DefaultConsoleFormat: string :=
    "<green>{time}</green> | <level>{level: <8}</level> | <cyan>{name}</cyan>:<cyan>{function}</cyan>:<cyan>{line}</cyan> - <level>{message}</level>"

  const DefaultFileFormat: string := "{time} | {level} | {message}"

  /**
   * A sink setting used as a string: `level` by `.upper()`, `format` by
   * `.replace`, `time_format` by `+`. Any other value raises there (an
   * AttributeError, or a TypeError).
   */
  datatype SinkError = NotAString(setting: string, typeName: string)

  /** `sink_config.get(key, default)` where a string is needed. */
  function Setting(sinkConfig: seq<Entry>, key: string, default: string): Result<string, SinkError> {
    match Lookup(sinkConfig, key)
    case None => Success(default)
    case Some(Str(s)) => Success(s)
    case Some(v) => Failure(NotAString(key, TypeName(v)))
  }

  /**
   * The configured `format` has a `.replace` method: strings do, and so do the
   * dates and times a parser yields (their `.replace` takes date fields and
   * rejects the string arguments only once they have been evaluated).
   */
  predicate FormatHasReplace(sinkConfig: seq<Entry>) {
    Lookup(sinkConfig, "format").None? || Lookup(sinkConfig, "format").value.Str?
    || Lookup(sinkConfig, "format").value.Other?
  }

  /**
   * The format an enabled sink registers: the configured `format` (or the
   * default) with `{time}` rewritten to the configured `time_format` (or the
   * default). A `level` that is not a string fails first, at `.upper()`. Then
   * a `format` without a `.replace` method fails at the attribute lookup; the
   * argument `"{time:" + time_format + "}"` comes next and fails for a
   * `time_format` that is not a string; last, a date or time `format` fails
   * inside its own `.replace`.
   */
  function SinkFormat(sinkConfig: seq<Entry>, defaultFormat: string): (r: Result<string, SinkError>)
    ensures r.Success? <==>
      Setting(sinkConfig, "level", "DEBUG").Success?
      && Setting(sinkConfig, "format", defaultFormat).Success?
      && Setting(sinkConfig, "time_format", DefaultTimeFormat).Success?
    ensures Setting(sinkConfig, "level", "DEBUG").Failure? ==> r == Failure(Setting(sinkConfig, "level", "DEBUG").error)
    ensures Setting(sinkConfig, "level", "DEBUG").Success? && !FormatHasReplace(sinkConfig) ==>
      r == Failure(Setting(sinkConfig, "format", defaultFormat).error)
    ensures Setting(sinkConfig, "level", "DEBUG").Success? && FormatHasReplace(sinkConfig)
            && Setting(sinkConfig, "time_format", DefaultTimeFormat).Failure? ==>
      r == Failure(Setting(sinkConfig, "time_format", DefaultTimeFormat).error)
    ensures Setting(sinkConfig, "level", "DEBUG").Success? && Setting(sinkConfig, "format", defaultFormat).Failure?
            && Setting(sinkConfig, "time_format", DefaultTimeFormat).Success? ==>
      r == Failure(Setting(sinkConfig, "format", defaultFormat).error)
    ensures r.Failure? ==>
      Lookup(sinkConfig, r.error.setting).Some? && !Lookup(sinkConfig, r.error.setting).value.Str?
  {
    var level := Setting(sinkConfig, "level", "DEBUG");
    var format := Setting(sinkConfig, "format", defaultFormat);
    var timeFormat := Setting(sinkConfig, "time_format", DefaultTimeFormat);
    if level.Failure? then Failure(level.error)
    else if !FormatHasReplace(sinkConfig) then Failure(format.error)
    else if timeFormat.Failure? then Failure(timeFormat.error)
    else if format.Failure? then Failure(format.error)
    else Success(ReplaceTime(format.value, timeFormat.value))
  }

  /** `sink_config.get("enabled", False)` is truthy. */
  predicate Enabled(sinkConfig: seq<Entry>) {
    Lookup(sinkConfig, "enabled").Some? && Truthy(Lookup(sinkConfig, "enabled").value)
  }

  /** `_configure_console_logging`: no sink when disabled, otherwise the console sink's format. */
  function ConsoleFormat(sinkConfig: seq<Entry>): Result<Option<string>, SinkError> {
    if !Enabled(sinkConfig) then Success(None)
    else match SinkFormat(sinkConfig, DefaultConsoleFormat)
      case Success(f) => Success(Some(f))
      case Failure(e) => Failure(e)
  }

  /** `_configure_file_logging`: no sink when disabled, otherwise the file sink's format. */
  function FileFormat(sinkConfig: seq<Entry>): Result<Option<string>, SinkError> {
    if !Enabled(sinkConfig) then Success(None)
    else match SinkFormat(sinkConfig, DefaultFileFormat)
      case Success(f) => Success(Some(f))
      case Failure(e) => Failure(e)
  }

  /** A format with exactly one `{time}` gets the replacement there and nowhere else. */
  lemma RewriteOneToken(head: string, tail: string, timeFormat: string)
    requires TokenFree(head) && TokenFree(tail)
    ensures ReplaceTime(head + TimeToken + tail, timeFormat) == head + TimeReplacement(timeFormat) + tail
  {
    assert AllTokenFree([head, tail]);
    RewriteReplacesEveryToken(head + TimeToken + tail, timeFormat, [head, tail]);
  }

  /**
   * The sink format is the configured or default format, split at its `{time}`
   * tokens and rejoined with the configured or default timestamp format.
   */
  lemma SinkFormatRewrite(sinkConfig: seq<Entry>, defaultFormat: string, pieces: seq<string>)
    requires Setting(sinkConfig, "level", "DEBUG").Success?
    requires Setting(sinkConfig, "format", defaultFormat).Success?
    requires |pieces| >= 1 && AllTokenFree(pieces)
    requires Join(pieces, TimeToken) == Setting(sinkConfig, "format", defaultFormat).value
    ensures var timeFormat := Setting(sinkConfig, "time_format", DefaultTimeFormat);
      SinkFormat(sinkConfig, defaultFormat) ==
        if timeFormat.Success? then Success(Join(pieces, TimeReplacement(timeFormat.value)))
        else Failure(timeFormat.error)
  {
    var timeFormat := Setting(sinkConfig, "time_format", DefaultTimeFormat);
    if timeFormat.Success? {
      RewriteReplacesEveryToken(Setting(sinkConfig, "format", defaultFormat).value, timeFormat.value, pieces);
    }
  }
}
