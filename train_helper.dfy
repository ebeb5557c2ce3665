/** universalgp/util/train_helper.py: `construct_from_flags` (one kernel per
    output dimension, the hyper-parameter order, the name lookups) and the
    decisions and flag-file text of `post_training`. The `cov`, `lik`, `inf`,
    `tf.train` and `plot` modules are registries given as inputs; files and
    plots are recorded as effects instead of performed. */
module TrainHelper {
  import opened Base

  // ---------------------------------------------------------------------------
  // Flags
  // ---------------------------------------------------------------------------

  /** A flag value. A float carries its Python text, since float formatting is not modelled. */
  datatype FlagValue =
    | Str(s: string)
    | Bool(b: bool)
    | Int(i: int)
    | Float(x: real, text: string)
    | NoneValue

  /** The flags dictionary, in insertion order. */
  type Flags = seq<(string, FlagValue)>

  /** `flags[key]`: the value of the first entry with that key. */
  function Lookup(flags: Flags, key: string): (r: Result<FlagValue>)
    ensures r.Ok? <==> exists k :: 0 <= k < |flags| && flags[k].0 == key
    ensures r.Err? ==> r.error == KeyError(key)
    ensures r.Ok? ==> (key, r.value) in flags
  {
    if flags == [] then Err(KeyError(key))
    else if flags[0].0 == key then Ok(flags[0].1)
    else
      var r := Lookup(flags[1..], key);
      assert r.Ok? ==> (key, r.value) in flags[1..];
      if r.Ok? || (exists k :: 0 <= k < |flags| && flags[k].0 == key) then
        assert forall k :: 1 <= k < |flags| ==> flags[k] == flags[1..][k - 1];
        r
      else r
  }

  /** Python truthiness. */
  predicate Truthy(v: FlagValue) {
    match v
    case Str(s) => s != []
    case Bool(b) => b
    case Int(i) => i != 0
    case Float(x, _) => x != 0.0
    case NoneValue => false
  }

  function DigitChar(d: nat): char
    requires d < 10
  {
    "0123456789"[d]
  }

  function NatToString(n: nat): (s: string)
    ensures s != [] && forall k :: 0 <= k < |s| ==> '0' <= s[k] <= '9'
    decreases n
  {
    if n < 10 then [DigitChar(n)] else NatToString(n / 10) + [DigitChar(n % 10)]
  }

  /** `str(v)` as an f-string prints it. */
  function Show(v: FlagValue): string {
    match v
    case Str(s) => s
    case Bool(b) => if b then "True" else "False"
    case Int(i) => if i < 0 then "-" + NatToString(-i) else NatToString(i)
    case Float(_, text) => text
    case NoneValue => "None"
  }

  // ---------------------------------------------------------------------------
  // construct_from_flags
  // ---------------------------------------------------------------------------

  /** A hyper-parameter variable, by name. */
  type Param = string

  /** A kernel or likelihood object: its class name and `get_params()`. */
  datatype Part = Part(kind: string, params: seq<Param>)

  /** The modules `getattr` looks names up in. */
  datatype Registries = Registries(
    cov: map<string, (int, Flags) -> Part>,
    lik: map<string, Flags -> Part>,
    inf: set<string>,
    optimizers: set<string>,
    plots: set<string>)

  /** The inference object, recording the arguments its class receives. */
  datatype Gp = Gp(kind: string, kernels: seq<Part>, likelihood: Part, numTrain: int,
                   inducingInputs: Matrix, flags: Flags)

  /** The optimizer, recording its class name and learning rate. */
  datatype Optimizer = Optimizer(kind: string, lr: FlagValue)

  /** The attribute name in `getattr(module, flags[key])`: a missing key
      raises KeyError, a value that is not a string TypeError. */
  function NameFlag(flags: Flags, key: string): (r: Result<string>)
    ensures r.Ok? <==> Lookup(flags, key).Ok? && Lookup(flags, key).value.Str?
    ensures r.Ok? ==> r.value == Lookup(flags, key).value.s
  {
    var v :- Lookup(flags, key);
    if v.Str? then Ok(v.s) else Err(TypeError)
  }

  /** `getattr(module, name)` for a module holding `names`. */
  function GetAttr(names: set<string>, name: string): (r: Result<string>)
    ensures r.Ok? <==> name in names
  {
    if name in names then Ok(name) else Err(AttributeError(name))
  }

  function Concat(ps: seq<seq<Param>>): seq<Param>
  {
    if ps == [] then [] else ps[0] + Concat(ps[1..])
  }

  /** `[k.get_params() for k in kernels]`. */
  function ParamLists(kernels: seq<Part>): (ps: seq<seq<Param>>)
    ensures |ps| == |kernels| && forall k :: 0 <= k < |ps| ==> ps[k] == kernels[k].params
  {
    seq(|kernels|, k requires 0 <= k < |kernels| => kernels[k].params)
  }

  /** `sum([k.get_params() for k in kernels], [])`. */
  function KernelParams(kernels: seq<Part>): seq<Param> {
    Concat(ParamLists(kernels))
  }

  /** `construct_from_flags`. The kernel comprehension reads `flags['cov']`
      only when it runs at least once, that is when `output_dim` > 0. Python
      evaluates the `getattr` of each call before its arguments, which fixes
      the order of the failures. */
  function ConstructFromFlags(reg: Registries, flags: Flags, inputDim: int, outputDim: int,
                              likelihoodName: string, inducingInputs: Matrix, numTrain: int)
    : Result<(Gp, seq<Param>, Optimizer)>
  {
    var covFunc :-
      if outputDim <= 0 then Ok([])
      else
        var name :- NameFlag(flags, "cov");
        if name !in reg.cov then Err(AttributeError(name))
        else Ok(seq(outputDim, _ => reg.cov[name](inputDim, flags)));
    var likName :- GetAttr(reg.lik.Keys, likelihoodName);
    var likFunc := reg.lik[likName](flags);
    var hyperParams := likFunc.params + KernelParams(covFunc);
    var infName :- NameFlag(flags, "inf");
    var infKind :- GetAttr(reg.inf, infName);
    var gp := Gp(infKind, covFunc, likFunc, numTrain, inducingInputs, flags);
    var optName :- NameFlag(flags, "optimizer");
    var optKind :- GetAttr(reg.optimizers, optName);
    var lr :- Lookup(flags, "lr");
    Ok((gp, hyperParams, Optimizer(optKind, lr)))
  }

  /** The names `construct_from_flags` must resolve. */
  predicate Resolves(reg: Registries, flags: Flags, outputDim: int, likelihoodName: string) {
    (outputDim > 0 ==> NameFlag(flags, "cov").Ok? && NameFlag(flags, "cov").value in reg.cov) &&
    likelihoodName in reg.lik &&
    NameFlag(flags, "inf").Ok? && NameFlag(flags, "inf").value in reg.inf &&
    NameFlag(flags, "optimizer").Ok? && NameFlag(flags, "optimizer").value in reg.optimizers &&
    Lookup(flags, "lr").Ok?
  }

  /** Construction succeeds exactly when every name resolves; there is no
      default for an unknown `cov`, likelihood, `inf` or `optimizer`. */
  lemma ConstructResolves(reg: Registries, flags: Flags, inputDim: int, outputDim: int,
                          likelihoodName: string, inducingInputs: Matrix, numTrain: int)
    ensures ConstructFromFlags(reg, flags, inputDim, outputDim, likelihoodName, inducingInputs, numTrain).Ok?
            <==> Resolves(reg, flags, outputDim, likelihoodName)
  {
  }

  /** A `cov` flag that is missing fails with
      KeyError('cov') as soon as there is an output dimension. */
  lemma MissingCovFails(reg: Registries, flags: Flags, inputDim: int, outputDim: int,
                        likelihoodName: string, inducingInputs: Matrix, numTrain: int)
    requires outputDim > 0 && forall k :: 0 <= k < |flags| ==> flags[k].0 != "cov"
    ensures ConstructFromFlags(reg, flags, inputDim, outputDim, likelihoodName, inducingInputs, numTrain)
            == Err(KeyError("cov"))
  {
  }

  lemma {:induction false} ConcatRepeatedLength(ps: seq<seq<Param>>, p: seq<Param>)
    requires forall k :: 0 <= k < |ps| ==> ps[k] == p
    ensures |Concat(ps)| == |ps| * |p|
  {
    if ps != [] {
      ConcatRepeatedLength(ps[1..], p);
      assert |ps| * |p| == |p| + (|ps| - 1) * |p|;
    }
  }

  /** `n` parts with parameters `p`, concatenated, hold parameter j of part k at k·|p| + j. */
  lemma {:induction false} ConcatRepeatedAt(ps: seq<seq<Param>>, p: seq<Param>, k: nat, j: nat)
    requires forall k :: 0 <= k < |ps| ==> ps[k] == p
    requires k < |ps| && j < |p|
    ensures k * |p| + j < |Concat(ps)| && Concat(ps)[k * |p| + j] == p[j]
  {
    ConcatRepeatedLength(ps, p);
    if k > 0 {
      ConcatRepeatedAt(ps[1..], p, k - 1, j);
      assert Concat(ps) == p + Concat(ps[1..]);
      assert k * |p| + j == |p| + ((k - 1) * |p| + j);
    }
  }

  /** One kernel per output dimension, each built from `(input_dim, flags)`;
      the hyper-parameters are the likelihood's followed by the kernels'; the
      inference object receives the kernels, the likelihood, `num_train`,
      the inducing inputs and the flags; the optimizer gets `flags['lr']`. */
  lemma ConstructedModel(reg: Registries, flags: Flags, inputDim: int, outputDim: int,
                         likelihoodName: string, inducingInputs: Matrix, numTrain: int)
    requires ConstructFromFlags(reg, flags, inputDim, outputDim, likelihoodName, inducingInputs, numTrain).Ok?
    ensures var (gp, hyper, opt) :=
              ConstructFromFlags(reg, flags, inputDim, outputDim, likelihoodName, inducingInputs, numTrain).value;
            |gp.kernels| == (if outputDim > 0 then outputDim else 0) &&
            (forall k :: 0 <= k < |gp.kernels| ==> gp.kernels[k] == reg.cov[NameFlag(flags, "cov").value](inputDim, flags)) &&
            gp.likelihood == reg.lik[likelihoodName](flags) &&
            gp.numTrain == numTrain && gp.inducingInputs == inducingInputs && gp.flags == flags &&
            gp.kind == NameFlag(flags, "inf").value &&
            opt == Optimizer(NameFlag(flags, "optimizer").value, Lookup(flags, "lr").value) &&
            hyper == gp.likelihood.params + KernelParams(gp.kernels)
  {
  }

  /** Position of parameter j of kernel k after `offset` leading parameters,
      with `width` parameters per kernel. */
  function Slot(offset: nat, width: nat, k: nat, j: nat): nat {
    offset + k * width + j
  }

  /** The hyper-parameter list of a likelihood and `n` kernels of one class:
      the likelihood's parameters come first, then parameter j of kernel k
      sits at |likelihood params| + k·|kernel params| + j. */
  lemma HyperParamLayout(lp: seq<Param>, kernels: seq<Part>)
    requires kernels != [] && forall k :: 0 <= k < |kernels| ==> kernels[k] == kernels[0]
    ensures (lp + KernelParams(kernels))[..|lp|] == lp
    ensures |lp + KernelParams(kernels)| == |lp| + |kernels| * |kernels[0].params|
    ensures forall k: nat, j: nat :: k < |kernels| && j < |kernels[0].params| ==>
              Slot(|lp|, |kernels[0].params|, k, j) < |lp + KernelParams(kernels)| &&
              (lp + KernelParams(kernels))[Slot(|lp|, |kernels[0].params|, k, j)] == kernels[0].params[j]
  {
    ParamListsRepeated(kernels);
    ConcatRepeatedLength(ParamLists(kernels), kernels[0].params);
    forall k: nat, j: nat | k < |kernels| && j < |kernels[0].params|
      ensures Slot(|lp|, |kernels[0].params|, k, j) < |lp + KernelParams(kernels)| &&
              (lp + KernelParams(kernels))[Slot(|lp|, |kernels[0].params|, k, j)] == kernels[0].params[j]
    {
      HyperParamAt(lp, kernels, k, j);
    }
  }

  lemma ParamListsRepeated(kernels: seq<Part>)
    requires kernels != [] && forall k :: 0 <= k < |kernels| ==> kernels[k] == kernels[0]
    ensures forall k :: 0 <= k < |ParamLists(kernels)| ==> ParamLists(kernels)[k] == kernels[0].params
  {
  }

  lemma HyperParamAt(lp: seq<Param>, kernels: seq<Part>, k: nat, j: nat)
    requires kernels != [] && forall k :: 0 <= k < |kernels| ==> kernels[k] == kernels[0]
    requires k < |kernels| && j < |kernels[0].params|
    ensures |lp| + k * |kernels[0].params| + j < |lp + KernelParams(kernels)|
    ensures (lp + KernelParams(kernels))[|lp| + k * |kernels[0].params| + j] == kernels[0].params[j]
  {
    var kp := kernels[0].params;
    var tail := KernelParams(kernels);
    ParamListsRepeated(kernels);
    ConcatRepeatedAt(ParamLists(kernels), kp, k, j);
    var i := k * |kp| + j;
    assert (lp + tail)[|lp| + i] == tail[i];
  }

  // ---------------------------------------------------------------------------
  // post_training
  // ---------------------------------------------------------------------------

  /** `k.startswith(prefix)`. */
  predicate StartsWith(k: string, prefix: string) {
    |prefix| <= |k| && k[..|prefix|] == prefix
  }

  /** Keys left out of the flag file: `h` and everything starting with `help`. */
  predicate Excluded(key: string) {
    StartsWith(key, "help") || key == "h"
  }

  /** The entries the comprehension keeps, in dictionary order. */
  function Kept(flags: Flags): (r: Flags)
    ensures |r| <= |flags|
    ensures forall e :: e in r <==> e in flags && !Excluded(e.0)
  {
    if flags == [] then []
    else if Excluded(flags[0].0) then Kept(flags[1..])
    else [flags[0]] + Kept(flags[1..])
  }

  /** Filtering a concatenation filters each part: the kept entries keep their order. */
  lemma {:induction false} KeptAppend(a: Flags, b: Flags)
    ensures Kept(a + b) == Kept(a) + Kept(b)
  {
    if a != [] {
      assert (a + b)[1..] == a[1..] + b;
      KeptAppend(a[1..], b);
    } else {
      assert a + b == b;
    }
  }

  /** `f"--{k}={v}"`. */
  function FlagLine(entry: (string, FlagValue)): string {
    "--" + entry.0 + "=" + Show(entry.1)
  }

  /** `sep.join(lines)`. */
  function Join(sep: char, lines: seq<string>): string
  {
    if lines == [] then ""
    else if |lines| == 1 then lines[0]
    else lines[0] + [sep] + Join(sep, lines[1..])
  }

  /** `text.split(sep)`: the pieces between separators. */
  function Split(sep: char, text: string): (r: seq<string>)
    ensures r != []
    decreases |text|
  {
    if text == [] then [""]
    else
      var rest := Split(sep, text[1..]);
      if text[0] == sep then [""] + rest else [[text[0]] + rest[0]] + rest[1..]
  }

  lemma {:induction false} SplitAppend(sep: char, line: string, text: string)
    requires sep !in line
    ensures Split(sep, line + [sep] + text) == [line] + Split(sep, text)
    ensures Split(sep, line) == [line]
    decreases |line|
  {
    if line == [] {
      assert line + [sep] + text == [sep] + text;
      assert ([sep] + text)[1..] == text;
    } else {
      assert (line + [sep] + text)[1..] == line[1..] + [sep] + text;
      assert line[0] != sep && line == [line[0]] + line[1..];
      SplitAppend(sep, line[1..], text);
    }
  }

  /** Splitting the joined text gives the lines back, provided there is at
      least one line and no line holds the separator. */
  lemma {:induction false} SplitJoin(sep: char, lines: seq<string>)
    requires lines != [] && forall k :: 0 <= k < |lines| ==> sep !in lines[k]
    ensures Split(sep, Join(sep, lines)) == lines
  {
    if |lines| == 1 {
      SplitAppend(sep, lines[0], "");
    } else {
      SplitJoin(sep, lines[1..]);
      SplitAppend(sep, lines[0], Join(sep, lines[1..]));
    }
  }

  /** The text written to `flag_<model_name>.txt`. */
  function FlagText(flags: Flags): string {
    var kept := Kept(flags);
    Join('\n', seq(|kept|, k requires 0 <= k < |kept| => FlagLine(kept[k])))
  }

  /** The flag file holds one `--k=v` line per kept key, in order, with no
      trailing newline: reading it back line by line gives exactly those lines. */
  lemma FlagTextLines(flags: Flags)
    requires Kept(flags) != []
    requires forall e :: e in flags ==> '\n' !in FlagLine(e)
    ensures var kept := Kept(flags);
            var lines := Split('\n', FlagText(flags));
            |lines| == |kept| && forall k :: 0 <= k < |kept| ==> lines[k] == FlagLine(kept[k])
  {
    var kept := Kept(flags);
    var lines := seq(|kept|, k requires 0 <= k < |kept| => FlagLine(kept[k]));
    forall k | 0 <= k < |lines| ensures '\n' !in lines[k] {
      assert kept[k] in kept;
    }
    SplitJoin('\n', lines);
  }

  /** Where the files go: `Path(out_dir)`, the current directory, or, for a
      name that is an absolute path, the file-system root. */
  datatype Dir = Cwd | OutDir(path: string) | Root

  /** A POSIX absolute path. */
  predicate IsAbsolute(path: string) {
    |path| > 0 && path[0] == '/'
  }

  /** `dir / Path(name)`: pathlib drops `dir` when `name` is absolute. */
  function JoinDir(dir: Dir, name: string): Dir {
    if IsAbsolute(name) then Root else dir
  }

  /** What `post_training` does, in order. */
  datatype Effect =
    | WriteFile(dir: Dir, name: string, text: string)
    | SavePredictions(dir: Dir, name: string)
    | MakePlot(name: string)

  /** The effects performed, and the exception that stopped the run, if any. */
  datatype Outcome = Outcome(effects: seq<Effect>, error: Option<PyError>)

  /** `post_training`; predictions and the dataset are passed through to the
      saving and plotting calls and are not modelled. */
  function PostTraining(reg: Registries, outDir: Option<string>, flags: Flags): Outcome {
    var saveDir := Lookup(flags, "save_dir");
    if saveDir.Err? then Outcome([], Some(saveDir.error))
    else if Truthy(saveDir.value) && outDir.None? then Outcome([], Some(TypeError))
    else
      var dir := if Truthy(saveDir.value) then OutDir(outDir.value) else Cwd;
      var modelName := Lookup(flags, "model_name");
      if modelName.Err? then Outcome([], Some(modelName.error))
      else
        var write := WriteFile(dir, "flag_" + Show(modelName.value) + ".txt", FlagText(flags));
        var rest := SaveAndPlot(reg, dir, flags);
        Outcome([write] + rest.effects, rest.error)
  }

  /** The part of `post_training` after the flag file: saving the predictions
      under `preds_path` and calling the plot function named by `plot`. */
  function SaveAndPlot(reg: Registries, dir: Dir, flags: Flags): Outcome {
    var predsPath := Lookup(flags, "preds_path");
    if predsPath.Err? then Outcome([], Some(predsPath.error))
    else if Truthy(predsPath.value) && !predsPath.value.Str? then Outcome([], Some(TypeError))
    else
      var saved := if Truthy(predsPath.value) then [SavePredictions(JoinDir(dir, predsPath.value.s), predsPath.value.s)] else [];
      var plot := Lookup(flags, "plot");
      if plot.Err? then Outcome(saved, Some(plot.error))
      else if !Truthy(plot.value) then Outcome(saved, None)
      else if !plot.value.Str? then Outcome(saved, Some(TypeError))
      else if plot.value.s !in reg.plots then Outcome(saved, Some(AttributeError(plot.value.s)))
      else Outcome(saved + [MakePlot(plot.value.s)], None)
  }

  /** Once `save_dir` and `model_name` are read, the flag file is written
      first, to `out_dir` when `save_dir` is truthy and to the current
      directory otherwise, whatever fails later. */
  lemma FlagFileWrittenFirst(reg: Registries, outDir: Option<string>, flags: Flags)
    requires Lookup(flags, "save_dir").Ok? && Lookup(flags, "model_name").Ok?
    requires Truthy(Lookup(flags, "save_dir").value) ==> outDir.Some?
    ensures var o := PostTraining(reg, outDir, flags);
            var dir := if Truthy(Lookup(flags, "save_dir").value) then OutDir(outDir.value) else Cwd;
            o.effects != [] &&
            o.effects[0] == WriteFile(dir, "flag_" + Show(Lookup(flags, "model_name").value) + ".txt", FlagText(flags))
  {
  }

  /** With every flag present and well-typed, predictions are saved (in the
      flag file's directory) exactly when `preds_path` is truthy, and a plot
      is made exactly when `plot` is truthy, after the flag file. */
  lemma PostTrainingBranches(reg: Registries, outDir: Option<string>, flags: Flags)
    requires Lookup(flags, "save_dir").Ok? && Lookup(flags, "model_name").Ok?
    requires Lookup(flags, "preds_path").Ok? && Lookup(flags, "plot").Ok?
    requires Truthy(Lookup(flags, "save_dir").value) ==> outDir.Some?
    requires Truthy(Lookup(flags, "preds_path").value) ==> Lookup(flags, "preds_path").value.Str?
    requires Truthy(Lookup(flags, "plot").value) ==>
               Lookup(flags, "plot").value.Str? && Lookup(flags, "plot").value.s in reg.plots
    ensures var o := PostTraining(reg, outDir, flags);
            var dir := if Truthy(Lookup(flags, "save_dir").value) then OutDir(outDir.value) else Cwd;
            var preds := Lookup(flags, "preds_path").value;
            var plot := Lookup(flags, "plot").value;
            o.error.None? && |o.effects| >= 1 &&
            o.effects[1..] == (if Truthy(preds) then [SavePredictions(JoinDir(dir, preds.s), preds.s)] else []) +
                              (if Truthy(plot) then [MakePlot(plot.s)] else [])
  {
  }
}
