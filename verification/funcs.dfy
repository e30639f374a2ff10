/** Helper-function maps (`template.FuncMap`) and the order in which the
    compiler installs them on every template: the user bundles in list order,
    then the built-in helpers. Function bodies are out of scope; a map binds a
    name to an identity for the function. */
module Funcs {

  /** The identity of a function a map binds. `Builtin` names the library's
      own helpers, `User` one supplied by the caller. */
  datatype Func = Builtin(id: string) | User(id: string)

  type FuncMap = map<string, Func>

  /** The built-in helpers, installed last so that they win on a name
      collision. `yield` renders the content template inside a layout and
      `current` gives the content template's name. */
  const HelperFuncs: FuncMap := map["yield" := Builtin("yield"), "current" := Builtin("current")]

  /** Installing bundles one after another, as repeated `tmpl.Funcs(funcs)`
      calls do: a later bundle overrides an earlier one on the same name. */
  function InstallAll(bundles: seq<FuncMap>): FuncMap
    decreases |bundles|
  {
    if |bundles| == 0 then map[]
    else InstallAll(bundles[..|bundles| - 1]) + bundles[|bundles| - 1]
  }

  /** What every compiled template ends up with (fs.go:62-67). */
  function EffectiveFuncs(bundles: seq<FuncMap>): FuncMap {
    InstallAll(bundles) + HelperFuncs
  }

  /** The binding of `k` after installing `bundles` comes from the last
      bundle that defines `k`, and `k` is bound only if some bundle defines it. */
  lemma {:induction false} InstallAllLastWins(bundles: seq<FuncMap>, k: string)
    ensures k in InstallAll(bundles) <==> exists i :: 0 <= i < |bundles| && k in bundles[i]
    ensures k in InstallAll(bundles) ==>
      exists i :: 0 <= i < |bundles| && k in bundles[i] && InstallAll(bundles)[k] == bundles[i][k] &&
                  forall j :: i < j < |bundles| ==> k !in bundles[j]
    decreases |bundles|
  {
    if |bundles| > 0 {
      var n := |bundles| - 1;
      var front := bundles[..n];
      InstallAllLastWins(front, k);
      assert forall i :: 0 <= i < n ==> front[i] == bundles[i];
      if k in bundles[n] {
        assert InstallAll(bundles)[k] == bundles[n][k];
      } else if k in InstallAll(front) {
        var i :| 0 <= i < n && k in front[i] && InstallAll(front)[k] == front[i][k] &&
                 forall j :: i < j < n ==> k !in front[j];
        assert InstallAll(bundles)[k] == bundles[i][k];
      }
    }
  }

  /** Built-ins always win, and every other name is bound exactly as the
      user bundles bind it, the last definition taking effect. */
  lemma EffectiveFuncsPrecedence(bundles: seq<FuncMap>, k: string)
    ensures k in HelperFuncs ==> k in EffectiveFuncs(bundles) && EffectiveFuncs(bundles)[k] == HelperFuncs[k]
    ensures k !in HelperFuncs ==>
      (k in EffectiveFuncs(bundles) <==> exists i :: 0 <= i < |bundles| && k in bundles[i])
    ensures k !in HelperFuncs && k in EffectiveFuncs(bundles) ==>
      exists i :: 0 <= i < |bundles| && k in bundles[i] && EffectiveFuncs(bundles)[k] == bundles[i][k] &&
                  forall j :: i < j < |bundles| ==> k !in bundles[j]
  {
    InstallAllLastWins(bundles, k);
  }
}
