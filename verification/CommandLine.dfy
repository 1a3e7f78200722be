/** Windows command lines: the quoting of arguments, and the documented rules by which a started process
    splits its command line again. */
module CommandLine {

  function Slashes(n: nat): (r: string)
    ensures |r| == n && forall i :: 0 <= i < n ==> r[i] == '\\'
  {
    seq(n, i => '\\')
  }

  // ---------- quoting ----------

  /** The rest of a value behind `slashes` backslashes that are still to be written. */
  function Escaped(value: string, slashes: nat): string
    decreases |value|
  {
    if value == "" then Slashes(2 * slashes)
    else if value[0] == '\\' then Escaped(value[1..], slashes + 1)
    else Slashes(if value[0] == '"' then 2 * slashes + 1 else slashes) + [value[0]] + Escaped(value[1..], 0)
  }

  function Quoted(value: string): string { "\"" + Escaped(value, 0) + "\"" }

  /** A counter holds back the backslashes until it is known what follows them. */
  method Quote(value: string) returns (result: string)
    ensures result == Quoted(value)
  {
    result := "\"";
    var slashes := 0;
    for i := 0 to |value|
      invariant result + Escaped(value[i..], slashes) == "\"" + Escaped(value, 0)
    {
      var character := value[i];
      assert value[i..][1..] == value[i + 1..];
      if character == '\\' {
        slashes := slashes + 1;
        continue;
      }
      ghost var before := result;
      result := result + Slashes(if character == '"' then slashes * 2 + 1 else slashes) + [character];
      Regroup(before, Slashes(if character == '"' then slashes * 2 + 1 else slashes), [character], Escaped(value[i + 1..], 0));
      slashes := 0;
    }
    result := result + Slashes(slashes * 2) + "\"";
  }

  lemma Regroup(a: string, b: string, c: string, d: string)
    ensures a + b + c + d == a + (b + c + d)
  {
  }

  /** Every argument is quoted and set off by one space. */
  function Arguments(args: seq<string>): string {
    if args == [] then "" else " " + Quoted(args[0]) + Arguments(args[1..])
  }

  method Command(executable: string, args: seq<string>) returns (command: string)
    ensures command == Quoted(executable) + Arguments(args)
  {
    command := Quote(executable);
    for i := 0 to |args|
      invariant command + Arguments(args[i..]) == Quoted(executable) + Arguments(args)
    {
      ghost var before := command;
      var quoted := Quote(args[i]);
      command := command + " " + quoted;
      assert args[i..][1..] == args[i + 1..];
      Regroup(before, " ", quoted, Arguments(args[i + 1..]));
    }
  }

  // ---------- the documented rules ----------

  predicate Blank(c: char) { c == ' ' || c == '\t' }

  /** Splitting of arguments. `current` is the argument read so far without the `slashes` backslashes just
      read; `open` says whether an argument has begun. Backslashes count only in front of a quotation mark:
      2n of them stand for n, and the mark opens or closes a quoted part; 2n + 1 stand for n, and the mark is
      literal. Under `pairs` a doubled mark inside a quoted part is one literal mark, as newer run-times have it. */
  function Split(s: string, pairs: bool, quoted: bool, slashes: nat, current: string, open: bool): seq<string>
    decreases |s|
  {
    if s == "" then
      if open then [current + Slashes(slashes)] else []
    else if s[0] == '\\' then
      Split(s[1..], pairs, quoted, slashes + 1, current, true)
    else if s[0] == '"' then
      var read := current + Slashes(slashes / 2);
      if slashes % 2 == 1 then Split(s[1..], pairs, quoted, 0, read + "\"", true)
      else if pairs && quoted && |s| > 1 && s[1] == '"' then Split(s[2..], pairs, quoted, 0, read + "\"", true)
      else Split(s[1..], pairs, !quoted, 0, read, true)
    else if Blank(s[0]) && !quoted then
      (if open then [current + Slashes(slashes)] else []) + Split(s[1..], pairs, false, 0, "", false)
    else
      Split(s[1..], pairs, quoted, 0, current + Slashes(slashes) + [s[0]], true)
  }

  /** The program name ends at the first blank outside quotation marks; the marks are dropped and nothing is
      escaped. */
  function ProgramName(s: string, quoted: bool): (string, string)
    decreases |s|
  {
    if s == "" then ("", "")
    else if s[0] == '"' then ProgramName(s[1..], !quoted)
    else if Blank(s[0]) && !quoted then ("", s)
    else
      var (name, rest) := ProgramName(s[1..], quoted);
      ([s[0]] + name, rest)
  }

  function SplitCommand(s: string, pairs: bool): seq<string> {
    var (name, rest) := ProgramName(s, false);
    [name] + Split(rest, pairs, false, 0, "", false)
  }

  // ---------- reading back what was quoted ----------

  lemma {:induction false} SplitSlashes(n: nat, rest: string, pairs: bool, quoted: bool, slashes: nat, current: string)
    ensures Split(Slashes(n) + rest, pairs, quoted, slashes, current, true) == Split(rest, pairs, quoted, slashes + n, current, true)
  {
    if n == 0 {
      assert Slashes(0) + rest == rest;
    } else {
      assert (Slashes(n) + rest)[1..] == Slashes(n - 1) + rest;
      SplitSlashes(n - 1, rest, pairs, quoted, slashes + 1, current);
    }
  }

  /** One character behind a run of backslashes. */
  lemma SplitStep(n: nat, c: char, rest: string, pairs: bool, current: string)
    requires c != '\\'
    ensures c != '"' ==> Split(Slashes(n) + [c] + rest, pairs, true, 0, current, true)
                         == Split(rest, pairs, true, 0, current + Slashes(n) + [c], true)
    ensures c == '"' && n % 2 == 1 ==> Split(Slashes(n) + [c] + rest, pairs, true, 0, current, true)
                                       == Split(rest, pairs, true, 0, current + Slashes(n / 2) + [c], true)
    ensures c == '"' && n % 2 == 0 && (rest == "" || rest[0] != '"') ==>
              Split(Slashes(n) + [c] + rest, pairs, true, 0, current, true)
              == Split(rest, pairs, false, 0, current + Slashes(n / 2), true)
  {
    hide Slashes;
    assert Slashes(n) + [c] + rest == Slashes(n) + ([c] + rest);
    SplitSlashes(n, [c] + rest, pairs, true, 0, current);
    assert ([c] + rest)[1..] == rest;
  }

  lemma OneSlashMore(current: string, slashes: nat, rest: string)
    ensures current + Slashes(slashes + 1) + rest == current + Slashes(slashes) + (['\\'] + rest)
  {
    assert Slashes(slashes + 1) == Slashes(slashes) + ['\\'];
  }

  lemma NoSlashes(current: string)
    ensures current + Slashes(0) == current
  {
  }

  /** Inside a quoted part, the escaped form of a value up to its closing mark reads as the value. */
  lemma {:induction false} SplitEscaped(value: string, slashes: nat, tail: string, pairs: bool, current: string)
    requires tail == "" || tail[0] == ' '
    ensures Split(Escaped(value, slashes) + "\"" + tail, pairs, true, 0, current, true)
            == Split(tail, pairs, false, 0, current + Slashes(slashes) + value, true)
    decreases |value|
  {
    hide Split, Slashes;
    if value == "" {
      SplitStep(2 * slashes, '"', tail, pairs, current);
      assert current + Slashes(slashes) + value == current + Slashes(slashes);
    } else {
      var c, after := value[0], value[1..];
      assert [c] + after == value;
      if c == '\\' {
        SplitEscaped(after, slashes + 1, tail, pairs, current);
        OneSlashMore(current, slashes, after);
      } else {
        var n, rest := if c == '"' then 2 * slashes + 1 else slashes, Escaped(after, 0) + "\"" + tail;
        assert Escaped(value, slashes) + "\"" + tail == Slashes(n) + [c] + rest;
        SplitStep(n, c, rest, pairs, current);
        var read := current + Slashes(slashes) + [c];
        SplitEscaped(after, 0, tail, pairs, read);
        NoSlashes(read);
        assert read + after == current + Slashes(slashes) + value;
      }
    }
  }

  /** Splitting the quoted arguments gives back the arguments, whatever they contain. */
  lemma {:induction false} ArgumentsRoundTrip(args: seq<string>, pairs: bool)
    ensures Split(Arguments(args), pairs, false, 0, "", false) == args
  {
    if args != [] {
      ArgumentsRoundTrip(args[1..], pairs);
      ArgumentRoundTrip(args[0], Arguments(args[1..]), pairs);
      assert Arguments(args) == " " + Quoted(args[0]) + Arguments(args[1..]);
    }
  }

  lemma ArgumentRoundTrip(arg: string, tail: string, pairs: bool)
    requires tail == "" || tail[0] == ' '
    ensures Split(" " + Quoted(arg) + tail, pairs, false, 0, "", false) == [arg] + Split(tail, pairs, false, 0, "", false)
  {
    hide Escaped;
    var s := " " + Quoted(arg) + tail;
    var body := Escaped(arg, 0) + "\"" + tail;
    assert s[1..] == "\"" + body && s[0] == ' ';
    assert ("\"" + body)[1..] == body;
    assert Split(s, pairs, false, 0, "", false) == Split(body, pairs, true, 0, "", true) by {
      assert "" + Slashes(0) == "";
    }
    SplitEscaped(arg, 0, tail, pairs, "");
    assert "" + Slashes(0) + arg == arg && arg + Slashes(0) == arg;
    assert Split(tail, pairs, false, 0, arg, true) == [arg] + Split(tail, pairs, false, 0, "", false);
  }

  // ---------- the program name ----------

  predicate EndsInSlash(value: string) {
    value != "" && value[|value| - 1] == '\\'
  }

  lemma {:induction false} EscapedHasNoMark(value: string, slashes: nat)
    requires '"' !in value
    ensures '"' !in Escaped(value, slashes)
    decreases |value|
  {
    if value != "" {
      EscapedHasNoMark(value[1..], slashes + 1);
      EscapedHasNoMark(value[1..], 0);
    }
  }

  /** Without quotation marks only the backslashes at the end are doubled. */
  lemma {:induction false} EscapedPlain(value: string, slashes: nat)
    requires '"' !in value
    ensures value != "" && !EndsInSlash(value) ==> Escaped(value, slashes) == Slashes(slashes) + value
    ensures EndsInSlash(value) ==> |Escaped(value, slashes)| > slashes + |value|
    decreases |value|
  {
    hide Slashes;
    if value != "" {
      var c, rest := value[0], value[1..];
      assert [c] + rest == value && (rest != "" ==> EndsInSlash(rest) == EndsInSlash(value));
      if c == '\\' {
        EscapedPlain(rest, slashes + 1);
        OneSlashMore("", slashes, rest);
        assert "" + Slashes(slashes + 1) == Slashes(slashes + 1) && "" + Slashes(slashes) == Slashes(slashes);
      } else {
        EscapedPlain(rest, 0);
        NoSlashes("");
        assert "" + Slashes(0) == Slashes(0);
        assert Slashes(slashes) + [c] + rest == Slashes(slashes) + value;
      }
    }
  }

  lemma {:induction false} ProgramNameHasNoMark(s: string, quoted: bool)
    ensures '"' !in ProgramName(s, quoted).0
    decreases |s|
  {
    if s != "" {
      ProgramNameHasNoMark(s[1..], !quoted);
      ProgramNameHasNoMark(s[1..], quoted);
    }
  }

  lemma {:induction false} ProgramNameToMark(body: string, tail: string)
    requires '"' !in body && (tail == "" || tail[0] == ' ')
    ensures ProgramName(body + "\"" + tail, true) == (body, tail)
    decreases |body|
  {
    var s := body + "\"" + tail;
    if body == "" {
      assert s[1..] == tail;
    } else {
      assert s[1..] == body[1..] + "\"" + tail;
      ProgramNameToMark(body[1..], tail);
      assert [body[0]] + body[1..] == body;
    }
  }

  lemma ProgramNameReads(executable: string, tail: string)
    requires '"' !in executable && (tail == "" || tail[0] == ' ')
    ensures ProgramName(Quoted(executable) + tail, false) == (Escaped(executable, 0), tail)
  {
    EscapedHasNoMark(executable, 0);
    var body := Escaped(executable, 0);
    assert (Quoted(executable) + tail)[1..] == body + "\"" + tail;
    ProgramNameToMark(body, tail);
  }

  /** The whole command line reads back as the program and its arguments exactly when the program's path holds
      no quotation mark and does not end in a backslash. */
  lemma CommandRoundTrip(executable: string, args: seq<string>, pairs: bool)
    ensures SplitCommand(Quoted(executable) + Arguments(args), pairs) == [executable] + args
            <==> '"' !in executable && !EndsInSlash(executable)
  {
    hide Escaped, Split, ProgramName, Quoted;
    var command := Quoted(executable) + Arguments(args);
    var name := ProgramName(command, false).0;
    assert SplitCommand(command, pairs)[0] == name;
    if '"' in executable {
      ProgramNameHasNoMark(command, false);
      assert name != executable;
      assert ([executable] + args)[0] == executable;
    } else {
      ArgumentsStart(args);
      ProgramNameReads(executable, Arguments(args));
      EscapedPlain(executable, 0);
      EscapedEmpty();
      assert Slashes(0) + executable == executable;
      ArgumentsRoundTrip(args, pairs);
      assert ([executable] + args)[0] == executable;
    }
  }

  lemma EscapedEmpty()
    ensures Escaped("", 0) == ""
  {
  }

  lemma ArgumentsStart(args: seq<string>)
    ensures Arguments(args) == "" || Arguments(args)[0] == ' '
  {
  }
}
