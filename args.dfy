/** Command-line configuration of the server (src/index.ts:17-33): `parseArgs` turns the
    `--key=value` arguments into a record, and the destination URL of the note service is
    taken from the `flomo_api_url` flag, else from the `FLOMO_API_URL` environment value.
    The argument vector and the environment value are parameters here. */
module Args {
  import opened Wrappers
  import JsValues

  /** The parsed flags: a key maps to `None` when its argument had no `=` (JavaScript
      stores `undefined` under that key). */
  type Flags = map<string, Option<string>>

  const Separator: char := '='
  const FlagPrefix: string := "--"
  /** Assigning to this key of a plain object runs the prototype setter, which ignores
      string and `undefined` values, so it never becomes an entry. */
  const ProtoKey: string := "__proto__"
  const UrlFlag: string := "flomo_api_url"

  /** Position of the first `c` in `s`, if any. */
  function IndexOf(s: string, c: char): (r: Option<nat>)
    ensures r.None? <==> c !in s
    ensures r.Some? ==> r.value < |s| && s[r.value] == c && c !in s[..r.value]
  {
    if s == [] then None
    else if s[0] == c then Some(0)
    else match IndexOf(s[1..], c)
      case None => None
      case Some(k) =>
        assert s[..k + 1] == [s[0]] + s[1..][..k];
        Some(k + 1)
  }

  /** `s.split(sep)` for a one-character separator: the pieces between separators, in
      order; the empty string splits into one empty piece. */
  function Split(s: string, sep: char): (parts: seq<string>)
    ensures |parts| >= 1
    ensures forall k :: 0 <= k < |parts| ==> sep !in parts[k]
    decreases |s|
  {
    match IndexOf(s, sep)
    case None => [s]
    case Some(i) => [s[..i]] + Split(s[i + 1..], sep)
  }

  /** `parts.join(sep)`, the inverse of Split. */
  function Join(parts: seq<string>, sep: char): string
    requires |parts| >= 1
  {
    if |parts| == 1 then parts[0] else parts[0] + [sep] + Join(parts[1..], sep)
  }

  lemma {:induction false} SplitThenJoin(s: string, sep: char)
    ensures Join(Split(s, sep), sep) == s
    decreases |s|
  {
    match IndexOf(s, sep)
    case None =>
    case Some(i) =>
      var rest := Split(s[i + 1..], sep);
      assert Split(s, sep) == [s[..i]] + rest;
      assert ([s[..i]] + rest)[1..] == rest;
      SplitThenJoin(s[i + 1..], sep);
      assert s == s[..i] + [sep] + s[i + 1..];
  }

  /** The first piece of a split is the text before the first separator, and the pieces
      after it are those of the text after that separator. */
  lemma SplitFirst(s: string, sep: char)
    ensures var first := Split(s, sep)[0];
            && |first| <= |s| && s[..|first|] == first
            && (|first| == |s| <==> sep !in s)
            && (|first| < |s| ==> s[|first|] == sep && Split(s, sep)[1..] == Split(s[|first| + 1..], sep))
  {
  }

  lemma {:induction false} JoinThenSplit(parts: seq<string>, sep: char)
    requires |parts| >= 1
    requires forall k :: 0 <= k < |parts| ==> sep !in parts[k]
    ensures Split(Join(parts, sep), sep) == parts
    decreases |parts|
  {
    var s := Join(parts, sep);
    if |parts| == 1 {
      assert IndexOf(s, sep).None?;
    } else {
      var p := parts[0];
      assert s == p + [sep] + Join(parts[1..], sep);
      assert s[|p|] == sep && s[..|p|] == p;
      assert IndexOf(s, sep) == Some(|p|);
      assert s[|p| + 1..] == Join(parts[1..], sep);
      JoinThenSplit(parts[1..], sep);
    }
  }

  /** `arg.startsWith("--")`. */
  predicate IsFlag(arg: string)
    ensures IsFlag(arg) <==> |arg| >= 2 && arg[0] == '-' && arg[1] == '-'
  {
    |arg| >= |FlagPrefix| && arg[..|FlagPrefix|] == FlagPrefix
  }

  /** `const [key, value] = body.split("=")`: the key is the text before the first `=`;
      the value is the text between the first and the second `=` (the rest is dropped),
      or `undefined` when there is no `=` at all. */
  function KeyValue(body: string): (kv: (string, Option<string>))
    ensures Separator !in kv.0 && |kv.0| <= |body| && body[..|kv.0|] == kv.0
    ensures kv.1.None? <==> Separator !in body
    ensures kv.1.None? ==> kv.0 == body
    ensures kv.1.Some? ==>
              var v, e := kv.1.value, |kv.0| + 1 + |kv.1.value|;
              Separator !in v && e <= |body| && body[|kv.0|] == Separator &&
              body[|kv.0| + 1..e] == v && (e == |body| || body[e] == Separator)
  {
    var parts := Split(body, Separator);
    SplitFirst(body, Separator);
    if |parts| >= 2 then
      var rest := body[|parts[0]| + 1..];
      SplitFirst(rest, Separator);
      assert parts[1] == Split(rest, Separator)[0];
      (parts[0], Some(parts[1]))
    else
      (parts[0], None)
  }

  /** The converse reading: a body `key=value` followed by nothing or by a further `=`
      yields exactly that key and value. */
  lemma KeyValueOf(key: string, value: string, rest: string)
    requires Separator !in key && Separator !in value
    requires rest == [] || rest[0] == Separator
    ensures KeyValue(key + [Separator] + value + rest) == (key, Some(value))
  {
    var body := key + [Separator] + value + rest;
    var kv := KeyValue(body);
    assert body[|key|] == Separator;
    assert kv.0 == key;
    var e := |key| + 1 + |value|;
    assert e == |body| || body[e] == Separator;
    assert body[|key| + 1..e] == value;
  }

  /** What `args[key] = value` does to a plain object. */
  function Store(args: Flags, key: string, value: Option<string>): (r: Flags)
    ensures forall k :: k in r <==> k in args || (k == key && key != ProtoKey)
    ensures key != ProtoKey ==> r[key] == value
    ensures forall k :: k in args && k != key ==> r[k] == args[k]
    ensures key == ProtoKey ==> r == args
  {
    if key == ProtoKey then args else args[key := value]
  }

  /** One pass of the `forEach` body. */
  function Step(args: Flags, arg: string): (r: Flags)
    ensures !IsFlag(arg) ==> r == args
    ensures args.Keys <= r.Keys
    ensures forall k :: k in r && k !in args ==> IsFlag(arg) && k == KeyValue(arg[|FlagPrefix|..]).0
    ensures ProtoKey in args || ProtoKey !in r
  {
    if IsFlag(arg) then
      var (key, value) := KeyValue(arg[|FlagPrefix|..]);
      Store(args, key, value)
    else args
  }

  /** The record `parseArgs` builds from the user arguments `argv`, processed in order. */
  function FlagsOf(argv: seq<string>): (r: Flags)
    ensures ProtoKey !in r
    ensures forall k :: k in r ==> Separator !in k
    decreases |argv|
  {
    if argv == [] then map[] else Step(FlagsOf(argv[..|argv| - 1]), argv[|argv| - 1])
  }

  /** `process.argv.slice(2)`: the arguments after the runtime and the script path. */
  function UserArgs(argv: seq<string>): (user: seq<string>)
    ensures |user| == if |argv| <= 2 then 0 else |argv| - 2
    ensures forall j :: 0 <= j < |user| ==> user[j] == argv[j + 2]
  {
    if |argv| <= 2 then [] else argv[2..]
  }

  /** `parseArgs()`, with `process.argv` as a parameter. */
  method ParseArgs(argv: seq<string>) returns (args: Flags)
    ensures args == FlagsOf(UserArgs(argv))
  {
    args := map[];
    var rest := UserArgs(argv);
    for i := 0 to |rest|
      invariant args == FlagsOf(rest[..i])
    {
      assert rest[..i + 1][..i] == rest[..i];
      var arg := rest[i];
      if IsFlag(arg) {
        var (key, value) := KeyValue(arg[|FlagPrefix|..]);
        if key != ProtoKey {
          args := args[key := value];
        }
      }
    }
    assert rest[..|rest|] == rest;
  }

  /** `arg` is a flag argument whose key is `key`. */
  predicate SetsKey(arg: string, key: string) {
    IsFlag(arg) && KeyValue(arg[|FlagPrefix|..]).0 == key
  }

  /** A key is in the record exactly when some flag argument names it (and it is not
      the prototype key). */
  lemma {:induction false} FlagsOfDomain(argv: seq<string>, key: string)
    ensures key in FlagsOf(argv) <==>
              key != ProtoKey && exists i :: 0 <= i < |argv| && SetsKey(argv[i], key)
    decreases |argv|
  {
    if argv != [] {
      var init, last := argv[..|argv| - 1], argv[|argv| - 1];
      FlagsOfDomain(init, key);
      if key != ProtoKey && (exists i :: 0 <= i < |argv| && SetsKey(argv[i], key)) {
        var i :| 0 <= i < |argv| && SetsKey(argv[i], key);
        if i < |argv| - 1 {
          assert init[i] == argv[i];
        }
      }
      if exists i :: 0 <= i < |init| && SetsKey(init[i], key) {
        var i :| 0 <= i < |init| && SetsKey(init[i], key);
        assert argv[i] == init[i];
      }
    }
  }

  /** The value under a key is the one from the LAST flag argument naming it: a repeated
      flag overwrites the earlier ones. */
  lemma {:induction false} FlagsOfLastWins(argv: seq<string>, i: nat, key: string)
    requires i < |argv| && SetsKey(argv[i], key) && key != ProtoKey
    requires forall j :: i < j < |argv| ==> !SetsKey(argv[j], key)
    ensures key in FlagsOf(argv)
    ensures FlagsOf(argv)[key] == KeyValue(argv[i][|FlagPrefix|..]).1
    decreases |argv|
  {
    var init, last := argv[..|argv| - 1], argv[|argv| - 1];
    if i < |argv| - 1 {
      forall j | i < j < |init| ensures !SetsKey(init[j], key) {
        assert init[j] == argv[j];
      }
      assert init[i] == argv[i];
      FlagsOfLastWins(init, i, key);
    }
  }

  /** An argument that does not start with `--` leaves the record unchanged, wherever it
      stands in the argument list. */
  lemma {:induction false} NonFlagIgnored(before: seq<string>, arg: string, after: seq<string>)
    requires !IsFlag(arg)
    ensures FlagsOf(before + [arg] + after) == FlagsOf(before + after)
    decreases |after|
  {
    if after == [] {
      assert (before + [arg] + after)[..|before|] == before;
      assert before + after == before;
    } else {
      var init, last := after[..|after| - 1], after[|after| - 1];
      NonFlagIgnored(before, arg, init);
      assert (before + [arg] + after)[..|before| + |after|] == before + [arg] + init;
      assert (before + after)[..|before| + |after| - 1] == before + init;
    }
  }

  /** A non-empty text is truthy; `undefined` is not. */
  predicate Given(o: Option<string>)
    ensures Given(o) <==> JsValues.Truthy(if o.Some? then JsValues.Str(o.value) else JsValues.Undefined)
  {
    o.Some? && o.value != ""
  }

  /** `args.flomo_api_url || process.env.FLOMO_API_URL || ""`. */
  function ResolveApiUrl(args: Flags, env: Option<string>): (url: string)
    ensures var flag := if UrlFlag in args then args[UrlFlag] else None;
            && (Given(flag) ==> url == flag.value)
            && (!Given(flag) && Given(env) ==> url == env.value)
            && (url == "" <==> !Given(flag) && !Given(env))
  {
    var flag := if UrlFlag in args then args[UrlFlag] else None;
    if Given(flag) then flag.value else if Given(env) then env.value else ""
  }

  /** Given on the command line as `--flomo_api_url=<url>` (and not repeated later), a
      URL without `=` is the destination, whatever the environment says. */
  lemma UrlFromCommandLine(argv: seq<string>, env: Option<string>, i: nat, url: string)
    requires 2 <= i < |argv| && argv[i] == FlagPrefix + UrlFlag + [Separator] + url
    requires url != "" && Separator !in url
    requires forall j :: i < j < |argv| ==> !SetsKey(argv[j], UrlFlag)
    ensures ResolveApiUrl(FlagsOf(UserArgs(argv)), env) == url
  {
    var user := UserArgs(argv);
    assert argv[i][|FlagPrefix|..] == UrlFlag + [Separator] + url + [];
    KeyValueOf(UrlFlag, url, []);
    assert user[i - 2] == argv[i];
    forall j | i - 2 < j < |user| ensures !SetsKey(user[j], UrlFlag) {
      assert user[j] == argv[j + 2];
    }
    FlagsOfLastWins(user, i - 2, UrlFlag);
  }

  /** With no `flomo_api_url` flag at all, the environment value decides. */
  lemma UrlFromEnvironment(argv: seq<string>, env: Option<string>)
    requires forall i :: 2 <= i < |argv| ==> !SetsKey(argv[i], UrlFlag)
    ensures ResolveApiUrl(FlagsOf(UserArgs(argv)), env) == (if Given(env) then env.value else "")
  {
    var user := UserArgs(argv);
    forall j | 0 <= j < |user| ensures !SetsKey(user[j], UrlFlag) {
      assert user[j] == argv[j + 2];
    }
    FlagsOfDomain(user, UrlFlag);
  }

  /** A URL carrying `=` is cut at it: `--flomo_api_url=https://host/?k=v` (not repeated
      later) configures `https://host/?k`, whatever follows the second `=`. */
  lemma UrlCutAtSecondSeparator(argv: seq<string>, env: Option<string>, i: nat, url: string, tail: string)
    requires 2 <= i < |argv| && argv[i] == FlagPrefix + UrlFlag + [Separator] + url + [Separator] + tail
    requires url != "" && Separator !in url
    requires forall j :: i < j < |argv| ==> !SetsKey(argv[j], UrlFlag)
    ensures ResolveApiUrl(FlagsOf(UserArgs(argv)), env) == url
  {
    var user := UserArgs(argv);
    assert argv[i][|FlagPrefix|..] == UrlFlag + [Separator] + url + ([Separator] + tail);
    KeyValueOf(UrlFlag, url, [Separator] + tail);
    assert user[i - 2] == argv[i];
    forall j | i - 2 < j < |user| ensures !SetsKey(user[j], UrlFlag) {
      assert user[j] == argv[j + 2];
    }
    FlagsOfLastWins(user, i - 2, UrlFlag);
  }
}
