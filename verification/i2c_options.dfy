/**
 The command line of the I2C program. Option recognition is done by the C
 library's `getopt_long`; the model takes its output as a sequence of
 recognised items and models what the program's `switch` does with each:
 a save path is copied into a 256-byte buffer with
 `strncpy(vSave, optarg, 255)`, a frequency is clamped into [1, 3200] Hz
 rather than rejected, `-h` prints usage and exits with 0, and anything
 getopt reports as unknown exits with 1. Arguments, the buffer and the
 path are byte strings, since `strncpy` counts bytes, not characters.
 */
module I2cOptions {
  import opened Base
  import opened Adxl345

  /** A byte string, as the C library handles arguments and paths. */
  type bytes = seq<byte>

  const NUL: byte := 0

  /** Size of the `vSave` buffer, terminator included. */
  const PathCapacity: nat := 256

  /** A string as C code sees it: no terminator inside. */
  predicate IsCString(s: bytes)
  {
    forall k :: 0 <= k < |s| ==> s[k] != NUL
  }

  /** The string a byte buffer holds: everything before its first
      terminator. */
  function CString(buf: bytes): (s: bytes)
    ensures IsCString(s)
    ensures |s| <= |buf| && s == buf[..|s|]
    ensures |s| < |buf| ==> buf[|s|] == NUL
  {
    if |buf| == 0 || buf[0] == NUL then [] else [buf[0]] + CString(buf[1..])
  }

  /** `strncpy(dest, src, n)`: the first `n` bytes of `dest` become
      `src`, padded with terminators; the rest of `dest` is unchanged. When
      `src` has `n` bytes or more, no terminator is written. */
  function Strncpy(dest: bytes, src: bytes, n: nat): (r: bytes)
    requires n <= |dest|
    ensures |r| == |dest|
    ensures |src| >= n ==> r[..n] == src[..n]
    ensures |src| < n ==> r[..|src|] == src && forall k :: |src| <= k < n ==> r[k] == NUL
    ensures r[n..] == dest[n..]
  {
    seq(|dest|, k requires 0 <= k < |dest| =>
      if k < n then (if k < |src| then src[k] else NUL) else dest[k])
  }

  /** The prefix of a path that fits the buffer with its terminator. */
  function Truncate(s: bytes): bytes
  {
    if |s| < PathCapacity then s else s[..PathCapacity - 1]
  }

  /** A buffer whose contents, up to a terminator, are `s`, reads as `s`. */
  lemma {:induction false} CStringOfTerminated(buf: bytes, s: bytes)
    requires IsCString(s) && |s| < |buf|
    requires buf[..|s|] == s && buf[|s|] == NUL
    ensures CString(buf) == s
  {
    if |s| > 0 {
      assert buf[1..][..|s| - 1] == s[1..];
      CStringOfTerminated(buf[1..], s[1..]);
      assert s == [s[0]] + s[1..];
    }
  }

  /** After `strncpy(vSave, optarg, 255)` into a buffer whose last byte is
      a terminator, the buffer holds the first min(len, 255) bytes of the
      argument, and its last byte is still a terminator. */
  lemma StoredPath(buf: bytes, arg: bytes)
    requires |buf| == PathCapacity && buf[PathCapacity - 1] == NUL
    requires IsCString(arg)
    ensures Strncpy(buf, arg, PathCapacity - 1)[PathCapacity - 1] == NUL
    ensures CString(Strncpy(buf, arg, PathCapacity - 1)) == Truncate(arg)
    ensures |Truncate(arg)| == if |arg| < PathCapacity then |arg| else PathCapacity - 1
    ensures Truncate(arg) <= arg
  {
    var r := Strncpy(buf, arg, PathCapacity - 1);
    var t := Truncate(arg);
    assert r[..|t|] == t;
    CStringOfTerminated(r, t);
  }

  /** The requested frequency moved into [1, 3200] Hz: below the range it
      becomes 1 Hz, above it the maximum, and within it stays as it is. */
  function ClampFrequency(f: real): (r: real)
    ensures ValidFreq(r)
    ensures ValidFreq(f) <==> r == f
    ensures f < 1.0 ==> r == 1.0
    ensures f > FreqMax ==> r == FreqMax
  {
    if f < 1.0 then 1.0 else if f > FreqMax then FreqMax else f
  }

  function Abs(x: real): real { if x < 0.0 then -x else x }

  /** The clamped frequency is the supported frequency closest to the
      requested one. */
  lemma ClampIsNearest(f: real, g: real)
    requires ValidFreq(g)
    ensures Abs(ClampFrequency(f) - f) <= Abs(g - f)
  {
  }

  lemma ClampIdempotent(f: real)
    ensures ClampFrequency(ClampFrequency(f)) == ClampFrequency(f)
  {
  }

  lemma ClampMonotone(f: real, g: real)
    requires f <= g
    ensures ClampFrequency(f) <= ClampFrequency(g)
  {
  }

  /** What `getopt_long` hands to the `switch`, one item per option. */
  datatype Item = SaveArg(optarg: bytes) | FreqArg(optarg: bytes) | Help | Unknown

  predicate IsOption(item: Item) { item.SaveArg? || item.FreqArg? }

  /** The option variables while the items are processed. */
  datatype Parsed = Parsed(save: bool, buf: bytes, freq: real)

  predicate WellFormed(p: Parsed)
  {
    |p.buf| == PathCapacity && p.buf[PathCapacity - 1] == NUL && ValidFreq(p.freq)
  }

  /** `char vSave[256] = ""`: every byte a terminator. */
  function EmptyPathBuffer(): (buf: bytes)
    ensures |buf| == PathCapacity
    ensures forall k :: 0 <= k < |buf| ==> buf[k] == NUL
  {
    seq(PathCapacity, k => NUL)
  }

  /** `bSave = 0`, `vSave = ""`, `vFreq = freqDefault`. */
  const Initial: Parsed := Parsed(false, EmptyPathBuffer(), FreqDefault)

  /** The program either goes on with its settings or exits with a code. */
  datatype Outcome = Run(save: bool, path: bytes, freq: real) | Exit(code: int)

  /** One pass of the `switch` for `-s` or `-f`: a save option turns save
      mode on and leaves the (truncated) path in the buffer, a frequency
      option sets the clamped frequency; nothing else changes. */
  function Step(st: Parsed, item: Item, atof: bytes -> real): (r: Parsed)
    requires WellFormed(st) && IsOption(item)
    ensures WellFormed(r)
    ensures item.SaveArg? ==> r.save && r.freq == st.freq
    ensures item.SaveArg? && IsCString(item.optarg) ==> CString(r.buf) == Truncate(item.optarg)
    ensures item.FreqArg? ==> r.save == st.save && r.buf == st.buf && r.freq == ClampFrequency(atof(item.optarg))
  {
    match item
    case SaveArg(a) =>
      var r := st.(save := true, buf := Strncpy(st.buf, a, PathCapacity - 1));
      if IsCString(a) then StoredPath(st.buf, a); r else r
    case FreqArg(a) => st.(freq := ClampFrequency(atof(a)))
  }

  function HandleFrom(items: seq<Item>, atof: bytes -> real, st: Parsed): (r: Outcome)
    requires WellFormed(st)
    ensures r.Run? ==> ValidFreq(r.freq) && IsCString(r.path) && |r.path| < PathCapacity
    ensures r.Exit? ==> r.code == 0 || r.code == 1
    decreases |items|
  {
    if |items| == 0 then Run(st.save, CString(st.buf), st.freq)
    else match items[0]
      case Help => Exit(0)
      case Unknown => Exit(1)
      case _ => HandleFrom(items[1..], atof, Step(st, items[0], atof))
  }

  function HandleOptions(items: seq<Item>, atof: bytes -> real): (r: Outcome)
    ensures r.Run? ==> ValidFreq(r.freq) && |r.path| < PathCapacity
  {
    HandleFrom(items, atof, Initial)
  }

  /** The argument of the last save option, if any. */
  function LastSave(items: seq<Item>): Option<bytes>
  {
    if |items| == 0 then None
    else if items[|items| - 1].SaveArg? then Some(items[|items| - 1].optarg)
    else LastSave(items[..|items| - 1])
  }

  /** The argument of the last frequency option, if any. */
  function LastFreq(items: seq<Item>): Option<bytes>
  {
    if |items| == 0 then None
    else if items[|items| - 1].FreqArg? then Some(items[|items| - 1].optarg)
    else LastFreq(items[..|items| - 1])
  }

  predicate OptionsOnly(items: seq<Item>)
  {
    forall k :: 0 <= k < |items| ==> IsOption(items[k]) && (items[k].SaveArg? ==> IsCString(items[k].optarg))
  }

  /** What a list of options leaves behind, starting from `st`: the last
      save path truncated, the last frequency clamped. */
  function Expected(st: Parsed, items: seq<Item>, atof: bytes -> real): Outcome
  {
    Run(st.save || LastSave(items).Some?,
        if LastSave(items).Some? then Truncate(LastSave(items).value) else CString(st.buf),
        if LastFreq(items).Some? then ClampFrequency(atof(LastFreq(items).value)) else st.freq)
  }

  lemma {:induction false} LastCons(x: Item, rest: seq<Item>)
    ensures LastSave([x] + rest) == if LastSave(rest).Some? then LastSave(rest)
                                   else if x.SaveArg? then Some(x.optarg) else None
    ensures LastFreq([x] + rest) == if LastFreq(rest).Some? then LastFreq(rest)
                                   else if x.FreqArg? then Some(x.optarg) else None
  {
    if |rest| > 0 {
      var items := [x] + rest;
      assert items[..|items| - 1] == [x] + rest[..|rest| - 1];
      LastCons(x, rest[..|rest| - 1]);
    } else {
      assert [x] + rest == [x];
      assert [x][..0] == [];
    }
  }

  lemma {:induction false} HandleFromOptions(items: seq<Item>, atof: bytes -> real, st: Parsed)
    requires WellFormed(st) && OptionsOnly(items)
    ensures HandleFrom(items, atof, st) == Expected(st, items, atof)
    decreases |items|
  {
    if |items| > 0 {
      var x := items[0];
      var rest := items[1..];
      assert OptionsOnly(rest) by {
        forall k | 0 <= k < |rest| ensures IsOption(rest[k]) && (rest[k].SaveArg? ==> IsCString(rest[k].optarg)) {
          assert rest[k] == items[k + 1];
        }
      }
      assert IsOption(x) && (x.SaveArg? ==> IsCString(x.optarg)) by { assert items[0] == x; }
      var st' := Step(st, x, atof);
      HandleFromOptions(rest, atof, st');
      assert items == [x] + rest;
      LastCons(x, rest);
      if x.SaveArg? {
        StoredPath(st.buf, x.optarg);
      }
    }
  }

  /** With only save and frequency options, the program runs in save mode
      exactly when a save option was given, with the last path given
      truncated to 255 bytes and the last frequency given clamped
      (250 Hz when none). */
  lemma HandleOptionsOnly(items: seq<Item>, atof: bytes -> real)
    requires OptionsOnly(items)
    ensures HandleOptions(items, atof) ==
      Run(LastSave(items).Some?,
          if LastSave(items).Some? then Truncate(LastSave(items).value) else [],
          if LastFreq(items).Some? then ClampFrequency(atof(LastFreq(items).value)) else FreqDefault)
  {
    HandleFromOptions(items, atof, Initial);
    CStringOfTerminated(Initial.buf, []);
  }

  /** The first help or unknown item ends option handling with exit code 0
      or 1, whatever follows it. */
  lemma {:induction false} HandleStops(opts: seq<Item>, stop: Item, rest: seq<Item>, atof: bytes -> real, st: Parsed)
    requires WellFormed(st)
    requires forall k :: 0 <= k < |opts| ==> IsOption(opts[k])
    requires !IsOption(stop)
    ensures HandleFrom(opts + [stop] + rest, atof, st) == Exit(if stop.Help? then 0 else 1)
    decreases |opts|
  {
    var items := opts + [stop] + rest;
    if |opts| > 0 {
      assert items[0] == opts[0];
      assert items[1..] == opts[1..] + [stop] + rest;
      HandleStops(opts[1..], stop, rest, atof, Step(st, opts[0], atof));
    } else {
      assert items[0] == stop;
    }
  }
}
