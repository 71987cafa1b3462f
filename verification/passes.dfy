/** The fixed pass lists of `btc/src/core/build.ts`: the TypeScript
    transformers run before emit, and the Babel plugins run on each
    captured output. Each pass of this model is applied to the statements
    of a file in list order. Passes that are not part of this model (the
    enum and namespace transformers, Babel's own plugins) are parameters. */
module Passes {
  import opened Ast
  import opened Base
  import ArrayFunctional
  import ArrayGeneral
  import StringTransform
  import MathTransform
  import ForOfToForIn
  import SpreadArray
  import SpreadObject
  import Destructuring
  import ReplaceDollar
  import LoopHoist
  import RemoveImportExport

  /** The `before` transformers of `program.emit`. */
  datatype TsPass =
    | EnumsToObjects
    | ArrayFunctionalPass
    | ArrayGeneralPass
    | StringPass
    | MathPass
    | Namespaces

  const TsPasses: seq<TsPass> :=
    [EnumsToObjects, ArrayFunctionalPass, ArrayGeneralPass, StringPass, MathPass, Namespaces]

  /** The Babel plugins, in the order of the configuration. */
  datatype BabelPlugin =
    | NumericSeparator
    | LogicalAssignment
    | NullishCoalescing
    | OptionalChaining
    | Exponentiation
    | TemplateLiterals
    | FunctionName
    | ArrowFunctions
    | ShorthandProperties
    | ForOfToForInPlugin
    | UnicodeEscapes
    | SpreadArrayPlugin
    | SpreadObjectPlugin
    | DestructuringPlugin
    | BlockScoping
    | ReplaceDollarPlugin
    | LoopHoistPlugin
    | RemoveImportExportPlugin

  const BabelPlugins: seq<BabelPlugin> := [
    NumericSeparator, LogicalAssignment, NullishCoalescing, OptionalChaining, Exponentiation,
    TemplateLiterals, FunctionName, ArrowFunctions, ShorthandProperties, ForOfToForInPlugin,
    UnicodeEscapes, SpreadArrayPlugin, SpreadObjectPlugin, DestructuringPlugin, BlockScoping,
    ReplaceDollarPlugin, LoopHoistPlugin, RemoveImportExportPlugin
  ]

  /** What the passes need from outside: the type checker's answers, the
      `Math` helper resource, fresh names for destructuring, and the passes
      that are not part of this model. */
  datatype Env = Env(
    arrayTyped: Expr -> bool,
    arrayType: Expr -> ArrayGeneral.TypeInfo,
    stringType: Expr -> StringTransform.TypeInfo,
    mathResource: seq<Stmt>,
    uid: Declarator -> string,
    enumsToObjects: seq<Stmt> -> seq<Stmt>,
    namespaces: seq<Stmt> -> seq<Stmt>,
    babelBuiltin: BabelPlugin -> (seq<Stmt> -> seq<Stmt>))

  function ApplyTs(p: TsPass, ss: seq<Stmt>, env: Env): seq<Stmt>
  {
    match p
    case EnumsToObjects => env.enumsToObjects(ss)
    case ArrayFunctionalPass => ArrayFunctional.VisitStmts(ss, env.arrayTyped)
    case ArrayGeneralPass => ArrayGeneral.Transform(ss, env.arrayType)
    case StringPass => StringTransform.Transform(ss, env.stringType)
    case MathPass => MathTransform.Transform(ss, env.mathResource)
    case Namespaces => env.namespaces(ss)
  }

  /** A plugin on a file; only the destructuring plugin of this model
      can fail. */
  function ApplyBabel(p: BabelPlugin, ss: seq<Stmt>, env: Env): Option<seq<Stmt>>
  {
    match p
    case ForOfToForInPlugin => Some(ForOfToForIn.Transform(ss))
    case SpreadArrayPlugin => Some(SpreadArray.Transform(ss))
    case SpreadObjectPlugin => Some(SpreadObject.Transform(ss))
    case DestructuringPlugin => Destructuring.Transform(ss, env.uid)
    case ReplaceDollarPlugin => Some(ReplaceDollar.Transform(ss))
    case LoopHoistPlugin => Some(LoopHoist.Transform(ss))
    case RemoveImportExportPlugin => Some(RemoveImportExport.Transform(ss))
    case _ => Some(env.babelBuiltin(p)(ss))
  }

  /** The passes applied one after another, first pass first. */
  function RunTs(ps: seq<TsPass>, ss: seq<Stmt>, env: Env): seq<Stmt>
  {
    if |ps| == 0 then ss else RunTs(ps[1..], ApplyTs(ps[0], ss, env), env)
  }

  /** The plugins one after another; a failing plugin fails the file. */
  function RunBabel(ps: seq<BabelPlugin>, ss: seq<Stmt>, env: Env): Option<seq<Stmt>>
  {
    if |ps| == 0 then Some(ss)
    else match ApplyBabel(ps[0], ss, env)
      case None => None
      case Some(t) => RunBabel(ps[1..], t, env)
  }

  /** Running a list in two parts is running it whole. */
  lemma {:induction false} RunBabelSplit(a: seq<BabelPlugin>, b: seq<BabelPlugin>, ss: seq<Stmt>, env: Env)
    ensures RunBabel(a + b, ss, env)
         == match RunBabel(a, ss, env) case None => None case Some(t) => RunBabel(b, t, env)
  {
    if |a| > 0 {
      Base.ConsAppend(a, b);
      match ApplyBabel(a[0], ss, env)
      case None =>
      case Some(t) => RunBabelSplit(a[1..], b, t, env);
    } else {
      assert a == [];
      Base.AppendEmpty(b);
    }
  }

  lemma {:induction false} RunTsSplit(a: seq<TsPass>, b: seq<TsPass>, ss: seq<Stmt>, env: Env)
    ensures RunTs(a + b, ss, env) == RunTs(b, RunTs(a, ss, env), env)
  {
    if |a| > 0 {
      Base.ConsAppend(a, b);
      RunTsSplit(a[1..], b, ApplyTs(a[0], ss, env), env);
    } else {
      assert a == [];
      Base.AppendEmpty(b);
    }
  }

  /** Import removal runs last, so whatever the other plugins do, Babel's
      output, when there is one, holds no import or export at the top
      level. */
  lemma BabelOutputHasNoModuleSyntax(ss: seq<Stmt>, env: Env)
    ensures RunBabel(BabelPlugins, ss, env).Some? ==>
              forall x :: x in RunBabel(BabelPlugins, ss, env).value ==> !RemoveImportExport.IsModule(x)
  {
    var n := |BabelPlugins| - 1;
    Base.InitLast(BabelPlugins);
    assert BabelPlugins[n] == RemoveImportExportPlugin;
    RunBabelSplit(BabelPlugins[..n], [RemoveImportExportPlugin], ss, env);
    match RunBabel(BabelPlugins[..n], ss, env)
    case None =>
    case Some(mid) =>
      RunLast(mid, env);
      RemoveImportExport.TransformSpec(mid);
  }

  lemma RunLast(mid: seq<Stmt>, env: Env)
    ensures RunBabel([RemoveImportExportPlugin], mid, env) == Some(RemoveImportExport.Transform(mid))
  {
    assert [RemoveImportExportPlugin][1..] == [];
  }

  /** The position of a plugin in the configuration. */
  function Position(p: BabelPlugin): (k: nat)
    ensures k < |BabelPlugins| && BabelPlugins[k] == p
  {
    match p
    case NumericSeparator => 0
    case LogicalAssignment => 1
    case NullishCoalescing => 2
    case OptionalChaining => 3
    case Exponentiation => 4
    case TemplateLiterals => 5
    case FunctionName => 6
    case ArrowFunctions => 7
    case ShorthandProperties => 8
    case ForOfToForInPlugin => 9
    case UnicodeEscapes => 10
    case SpreadArrayPlugin => 11
    case SpreadObjectPlugin => 12
    case DestructuringPlugin => 13
    case BlockScoping => 14
    case ReplaceDollarPlugin => 15
    case LoopHoistPlugin => 16
    case RemoveImportExportPlugin => 17
  }

  /** Every plugin is configured exactly once. */
  lemma PluginsDistinct()
    ensures forall i, j :: 0 <= i < j < |BabelPlugins| ==> BabelPlugins[i] != BabelPlugins[j]
    ensures forall p: BabelPlugin :: p in BabelPlugins
  {
    forall i, j | 0 <= i < j < |BabelPlugins| ensures BabelPlugins[i] != BabelPlugins[j] {
      assert Position(BabelPlugins[i]) == i && Position(BabelPlugins[j]) == j;
    }
    forall p: BabelPlugin ensures p in BabelPlugins {
      assert BabelPlugins[Position(p)] == p;
    }
  }

  /** Spread lowering precedes destructuring, which precedes block
      scoping, loop hoisting and import removal; the `for-of` rewrite
      precedes them all. */
  lemma BabelOrder()
    ensures Position(ForOfToForInPlugin) < Position(SpreadArrayPlugin) < Position(SpreadObjectPlugin)
    ensures Position(SpreadObjectPlugin) < Position(DestructuringPlugin) < Position(BlockScoping)
    ensures Position(BlockScoping) < Position(ReplaceDollarPlugin) < Position(LoopHoistPlugin)
    ensures Position(LoopHoistPlugin) < Position(RemoveImportExportPlugin) == |BabelPlugins| - 1
  {
  }
}
