/** Resolving a control's relative model string against the model of the form around it. */
module ResolveModel {
  import opened Paths

  /**
   * `resolveModel(model, parentModel)` for string models: with a (non-empty) parent, a model
   * starting with '.' or '[' is appended to it; everything else is returned as it is.
   */
  function ResolveModel(model: string, parent: string): (r: string)
    ensures parent != "" && |model| > 0 && (model[0] == '.' || model[0] == '[') ==> r == parent + model
    ensures parent == "" || |model| == 0 || (model[0] != '.' && model[0] != '[') ==> r == model
  {
    if parent != "" && |model| > 0 && (model[0] == '.' || model[0] == '[') then parent + model
    else model
  }

  /** A relative ".k" or "[k]" names the child `k` of the parent's path. */
  lemma ResolvedPath(parent: string, k: string)
    requires parent != "" && SimpleKey(k)
    ensures ToPath(ResolveModel("." + k, parent)) == ToPath(parent) + [k]
    ensures ToPath(ResolveModel("[" + k + "]", parent)) == ToPath(parent) + [k]
  {
    assert parent + ("." + k) == parent + "." + k;
    assert parent + ("[" + k + "]") == parent + "[" + k + "]";
    ToPathDotChild(parent, k);
    ToPathBracketChild(parent, k);
  }

  /** Without a parent, or for an absolute model, resolving changes nothing, so it is idempotent there. */
  lemma ResolveAbsolute(model: string, parent: string)
    requires parent == "" || |model| == 0 || (model[0] != '.' && model[0] != '[')
    ensures ResolveModel(ResolveModel(model, parent), parent) == model
  {
  }
}
