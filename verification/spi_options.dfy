/**
 The command line of the SPI program. Arguments are scanned left to right:
 `-s`/`--save` and `-f`/`--freq` each consume the following argument as
 their value, anything else is a usage error, a flag without a value is a
 usage error, and a frequency outside [1, 3200] Hz ends the program at once.
 A later occurrence of an option overrides an earlier one.

 The library's `atof` is a parameter: the model takes whatever number it
 makes of the text.
 */
module SpiOptions {
  import opened Base
  import opened Adxl345

  datatype Config = Config(save: bool, path: string, freq: real)

  const Default: Config := Config(false, "", FreqDefault)

  /** Both errors make the program return 1; they differ in the message. */
  datatype ParseError = Usage | InvalidFrequency(freq: real)

  predicate IsSaveFlag(s: string) { s == "-s" || s == "--save" }

  predicate IsFreqFlag(s: string) { s == "-f" || s == "--freq" }

  /** The scan from argument `i` on, with `cfg` holding what the arguments
      before `i` have set. */
  function ParseFrom(args: seq<string>, atof: string -> real, i: nat, cfg: Config): (r: Result<Config, ParseError>)
    requires i <= |args|
    requires ValidFreq(cfg.freq)
    ensures r.Ok? ==> ValidFreq(r.value.freq)
    ensures r.Ok? ==> (|args| - i) % 2 == 0
    ensures r.Ok? && cfg.save ==> r.value.save
    ensures r.Err? && r.error.InvalidFrequency? ==> !ValidFreq(r.error.freq)
    decreases |args| - i
  {
    if i == |args| then Ok(cfg)
    else if IsSaveFlag(args[i]) then
      if i + 1 < |args| then ParseFrom(args, atof, i + 2, cfg.(save := true, path := args[i + 1]))
      else Err(Usage)
    else if IsFreqFlag(args[i]) then
      if i + 1 < |args| then
        var f := atof(args[i + 1]);
        if f < 1.0 || f > FreqMax then Err(InvalidFrequency(f))
        else ParseFrom(args, atof, i + 2, cfg.(freq := f))
      else Err(Usage)
    else Err(Usage)
  }

  /** The arguments after the program name. */
  function Parse(args: seq<string>, atof: string -> real): (r: Result<Config, ParseError>)
    ensures r.Ok? ==> ValidFreq(r.value.freq) && |args| % 2 == 0
    ensures |args| == 0 ==> r == Ok(Default)
  {
    ParseFrom(args, atof, 0, Default)
  }

  /** One option with its value, as the user wrote it. */
  datatype Opt = Opt(flag: string, value: string)

  /** An option the parser accepts: a known flag, and for a frequency a
      value within range. */
  predicate Accepted(o: Opt, atof: string -> real)
  {
    IsSaveFlag(o.flag) || (IsFreqFlag(o.flag) && ValidFreq(atof(o.value)))
  }

  predicate AllAccepted(opts: seq<Opt>, atof: string -> real)
  {
    forall k :: 0 <= k < |opts| ==> Accepted(opts[k], atof)
  }

  /** The argument list that spells out a list of options. */
  function Unparse(opts: seq<Opt>): (args: seq<string>)
    ensures |args| == 2 * |opts|
  {
    if |opts| == 0 then [] else [opts[0].flag, opts[0].value] + Unparse(opts[1..])
  }

  /** The effect of one accepted option on the configuration. */
  function ApplyOpt(cfg: Config, o: Opt, atof: string -> real): Config
  {
    if IsSaveFlag(o.flag) then cfg.(save := true, path := o.value)
    else cfg.(freq := atof(o.value))
  }

  /** The effect of a list of options, first to last. */
  function Apply(cfg: Config, opts: seq<Opt>, atof: string -> real): Config
    decreases |opts|
  {
    if |opts| == 0 then cfg else Apply(ApplyOpt(cfg, opts[0], atof), opts[1..], atof)
  }

  /** Spelling out any list of accepted options and parsing it gives back
      their combined effect. */
  lemma {:induction false} ParseUnparse(opts: seq<Opt>, atof: string -> real)
    requires AllAccepted(opts, atof)
    ensures Parse(Unparse(opts), atof) == Ok(Apply(Default, opts, atof))
  {
    ParseFromUnparse(opts, [], atof, Default);
    assert [] + opts == opts;
  }

  lemma {:induction false} ParseFromUnparse(opts: seq<Opt>, done: seq<Opt>, atof: string -> real, cfg: Config)
    requires AllAccepted(opts, atof)
    requires ValidFreq(cfg.freq)
    ensures |Unparse(done)| <= |Unparse(done + opts)|
    ensures ParseFrom(Unparse(done + opts), atof, |Unparse(done)|, cfg) == Ok(Apply(cfg, opts, atof))
  {
    UnparseAppend(done, opts);
    var args := Unparse(done + opts);
    var i := |Unparse(done)|;
    assert args[i..] == Unparse(opts);
    if |opts| > 0 {
      var o := opts[0];
      assert args[i] == o.flag && args[i + 1] == o.value;
      assert Accepted(o, atof);
      UnparseAppend(done, [o]);
      assert done + opts == (done + [o]) + opts[1..];
      assert AllAccepted(opts[1..], atof) by {
        forall k | 0 <= k < |opts[1..]| ensures Accepted(opts[1..][k], atof) {
          assert opts[1..][k] == opts[k + 1];
        }
      }
      ParseFromUnparse(opts[1..], done + [o], atof, ApplyOpt(cfg, o, atof));
    }
  }

  lemma {:induction false} UnparseAppend(a: seq<Opt>, b: seq<Opt>)
    ensures Unparse(a + b) == Unparse(a) + Unparse(b)
  {
    if |a| > 0 {
      assert (a + b)[1..] == a[1..] + b;
      UnparseAppend(a[1..], b);
    } else {
      assert a + b == b;
    }
  }

  /** Every argument list the parser accepts is the spelling of a list of
      accepted options, and the configuration is their combined effect. */
  lemma ParseSound(args: seq<string>, atof: string -> real)
    requires Parse(args, atof).Ok?
    ensures exists opts :: AllAccepted(opts, atof) && Unparse(opts) == args
                           && Parse(args, atof).value == Apply(Default, opts, atof)
  {
    var opts := ParseFromSound(args, atof, 0, Default);
  }

  lemma {:induction false} ParseFromSound(args: seq<string>, atof: string -> real, i: nat, cfg: Config)
    returns (opts: seq<Opt>)
    requires i <= |args|
    requires ValidFreq(cfg.freq)
    requires ParseFrom(args, atof, i, cfg).Ok?
    ensures AllAccepted(opts, atof) && Unparse(opts) == args[i..]
    ensures ParseFrom(args, atof, i, cfg).value == Apply(cfg, opts, atof)
    decreases |args| - i
  {
    if i == |args| {
      opts := [];
    } else {
      var o := Opt(args[i], args[i + 1]);
      var rest := ParseFromSound(args, atof, i + 2, ApplyOpt(cfg, o, atof));
      opts := [o] + rest;
      assert opts[1..] == rest;
      assert args[i..] == [args[i], args[i + 1]] + args[i + 2..];
    }
  }

  /** A later option overrides the configuration an earlier one set. */
  lemma {:induction false} ApplyAppend(cfg: Config, a: seq<Opt>, b: seq<Opt>, atof: string -> real)
    ensures Apply(cfg, a + b, atof) == Apply(Apply(cfg, a, atof), b, atof)
    decreases |a|
  {
    if |a| > 0 {
      assert (a + b)[1..] == a[1..] + b;
      ApplyAppend(ApplyOpt(cfg, a[0], atof), a[1..], b, atof);
    } else {
      assert a + b == b;
    }
  }

  /** The last frequency option decides the frequency, and the last save
      option decides the path. */
  lemma LastOptionWins(opts: seq<Opt>, o: Opt, atof: string -> real)
    ensures IsFreqFlag(o.flag) ==> Apply(Default, opts + [o], atof).freq == atof(o.value)
    ensures IsSaveFlag(o.flag) ==> Apply(Default, opts + [o], atof).save
    ensures IsSaveFlag(o.flag) ==> Apply(Default, opts + [o], atof).path == o.value
  {
    ApplyAppend(Default, opts, [o], atof);
  }

  /** The value of the last save option, if any. */
  function LastSave(opts: seq<Opt>): Option<string>
  {
    if |opts| == 0 then None
    else if IsSaveFlag(opts[|opts| - 1].flag) then Some(opts[|opts| - 1].value)
    else LastSave(opts[..|opts| - 1])
  }

  /** The value of the last frequency option, if any. */
  function LastFreq(opts: seq<Opt>): Option<string>
  {
    if |opts| == 0 then None
    else if IsFreqFlag(opts[|opts| - 1].flag) then Some(opts[|opts| - 1].value)
    else LastFreq(opts[..|opts| - 1])
  }

  /** Wherever the options stand, the last save option decides the path and
      turns save mode on, and the last frequency option decides the
      frequency; an aspect no option names keeps its earlier setting. */
  lemma {:induction false} LastOptionsDecide(cfg: Config, opts: seq<Opt>, atof: string -> real)
    requires forall k :: 0 <= k < |opts| ==> IsSaveFlag(opts[k].flag) || IsFreqFlag(opts[k].flag)
    ensures Apply(cfg, opts, atof) ==
      Config(cfg.save || LastSave(opts).Some?,
             if LastSave(opts).Some? then LastSave(opts).value else cfg.path,
             if LastFreq(opts).Some? then atof(LastFreq(opts).value) else cfg.freq)
    decreases |opts|
  {
    if |opts| > 0 {
      var init := opts[..|opts| - 1];
      var o := opts[|opts| - 1];
      assert opts == init + [o];
      assert forall k :: 0 <= k < |init| ==> init[k] == opts[k];
      LastOptionsDecide(cfg, init, atof);
      ApplyAppend(cfg, init, [o], atof);
      var mid := Apply(cfg, init, atof);
      assert Apply(mid, [o], atof) == Apply(ApplyOpt(mid, o, atof), [], atof) by {
        assert [o][1..] == [];
      }
    }
  }

  /** Save mode is on exactly when some option is a save option; when
      every option is a save option the frequency stays as it was, and
      when every option is a frequency option save mode and path do. */
  lemma {:induction false} ApplyFlags(cfg: Config, opts: seq<Opt>, atof: string -> real)
    ensures Apply(cfg, opts, atof).save <==>
      cfg.save || exists k :: 0 <= k < |opts| && IsSaveFlag(opts[k].flag)
    ensures (forall k :: 0 <= k < |opts| ==> IsSaveFlag(opts[k].flag)) ==>
            Apply(cfg, opts, atof).freq == cfg.freq
    ensures (forall k :: 0 <= k < |opts| ==> IsFreqFlag(opts[k].flag)) ==>
            Apply(cfg, opts, atof).save == cfg.save && Apply(cfg, opts, atof).path == cfg.path
    decreases |opts|
  {
    if |opts| > 0 {
      var o := opts[0];
      ApplyFlags(ApplyOpt(cfg, o, atof), opts[1..], atof);
      if exists k :: 0 <= k < |opts[1..]| && IsSaveFlag(opts[1..][k].flag) {
        var k :| 0 <= k < |opts[1..]| && IsSaveFlag(opts[1..][k].flag);
        assert IsSaveFlag(opts[k + 1].flag);
      }
      if exists k :: 0 <= k < |opts| && IsSaveFlag(opts[k].flag) {
        var k :| 0 <= k < |opts| && IsSaveFlag(opts[k].flag);
        if k > 0 {
          assert IsSaveFlag(opts[1..][k - 1].flag);
        }
      }
      if forall k :: 0 <= k < |opts| ==> IsSaveFlag(opts[k].flag) {
        assert IsSaveFlag(o.flag);
        assert forall k :: 0 <= k < |opts[1..]| ==> opts[1..][k] == opts[k + 1];
      }
      if forall k :: 0 <= k < |opts| ==> IsFreqFlag(opts[k].flag) {
        assert IsFreqFlag(o.flag);
        assert forall k :: 0 <= k < |opts[1..]| ==> opts[1..][k] == opts[k + 1];
      }
    }
  }

  /** Errors: the first offending argument decides, whatever follows it. */
  lemma ParseErrors(opts: seq<Opt>, rest: seq<string>, atof: string -> real)
    requires AllAccepted(opts, atof)
    ensures |rest| > 0 && !IsSaveFlag(rest[0]) && !IsFreqFlag(rest[0]) ==>
      Parse(Unparse(opts) + rest, atof) == Err(Usage)
    ensures |rest| == 1 ==> Parse(Unparse(opts) + rest, atof) == Err(Usage)
    ensures |rest| >= 2 && IsFreqFlag(rest[0]) && !ValidFreq(atof(rest[1])) ==>
      Parse(Unparse(opts) + rest, atof) == Err(InvalidFrequency(atof(rest[1])))
  {
    ParsePrefix(opts, [], rest, atof, Default);
    assert [] + opts == opts;
    var args := Unparse(opts) + rest;
    var i := |Unparse(opts)|;
    assert forall j :: 0 <= j < |rest| ==> args[i + j] == rest[j];
  }

  /** Parsing the spelling of accepted options followed by more arguments
      continues from their combined effect. */
  lemma {:induction false} ParsePrefix(opts: seq<Opt>, done: seq<Opt>, rest: seq<string>, atof: string -> real, cfg: Config)
    requires AllAccepted(opts, atof)
    requires ValidFreq(cfg.freq)
    ensures |Unparse(done)| <= |Unparse(done + opts) + rest|
    ensures |Unparse(done + opts)| <= |Unparse(done + opts) + rest|
    ensures ValidFreq(Apply(cfg, opts, atof).freq)
    ensures ParseFrom(Unparse(done + opts) + rest, atof, |Unparse(done)|, cfg)
         == ParseFrom(Unparse(done + opts) + rest, atof, |Unparse(done + opts)|, Apply(cfg, opts, atof))
  {
    UnparseAppend(done, opts);
    var args := Unparse(done + opts) + rest;
    var i := |Unparse(done)|;
    if |opts| > 0 {
      var o := opts[0];
      assert args[i..] == Unparse(opts) + rest;
      assert args[i] == o.flag && args[i + 1] == o.value;
      assert Accepted(o, atof);
      UnparseAppend(done, [o]);
      assert done + opts == (done + [o]) + opts[1..];
      assert AllAccepted(opts[1..], atof) by {
        forall k | 0 <= k < |opts[1..]| ensures Accepted(opts[1..][k], atof) {
          assert opts[1..][k] == opts[k + 1];
        }
      }
      ParsePrefix(opts[1..], done + [o], rest, atof, ApplyOpt(cfg, o, atof));
    } else {
      assert done + opts == done;
    }
  }
}
