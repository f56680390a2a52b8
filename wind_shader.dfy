/**
 * `threejs/wind/setup/utils-shader.js`: the wind demo's own copies of
 * `injectBefore` and `injectAfter`, written out again over
 * `String.prototype.replace`. Their contracts say that they agree with
 * `shaderTools` of the common utilities on every input, so every lemma of
 * `ShaderTools` about those applies to these.
 */
module WindShaderUtils {
  import ShaderTools

  /** `injectBefore` of the wind setup */
  function InjectBefore(source: string, pattern: string, injectedCode: string): (r: string)
    ensures r == ShaderTools.InjectBefore(source, pattern, injectedCode)
  {
    ShaderTools.Replace(source, pattern, injectedCode + "\n" + pattern)
  }

  /** `injectAfter` of the wind setup */
  function InjectAfter(source: string, pattern: string, injectedCode: string): (r: string)
    ensures r == ShaderTools.InjectAfter(source, pattern, injectedCode)
  {
    ShaderTools.Replace(source, pattern, pattern + "\n" + injectedCode)
  }

  /** injectBefore puts the code and a newline immediately before the first occurrence */
  lemma InjectBeforePlacement(source: string, pattern: string, injectedCode: string, k: nat)
    requires ShaderTools.FirstAt(source, pattern, k)
    requires ShaderTools.NoDollar(injectedCode) && ShaderTools.NoDollar(pattern)
    ensures InjectBefore(source, pattern, injectedCode)
            == source[..k] + injectedCode + "\n" + pattern + source[k + |pattern|..]
  {
    ShaderTools.InjectBeforeFirst(source, pattern, injectedCode, k);
  }

  /** injectAfter puts a newline and the code immediately after the first occurrence */
  lemma InjectAfterPlacement(source: string, pattern: string, injectedCode: string, k: nat)
    requires ShaderTools.FirstAt(source, pattern, k)
    requires ShaderTools.NoDollar(injectedCode) && ShaderTools.NoDollar(pattern)
    ensures InjectAfter(source, pattern, injectedCode)
            == source[..k] + pattern + "\n" + injectedCode + source[k + |pattern|..]
  {
    ShaderTools.InjectAfterFirst(source, pattern, injectedCode, k);
  }

  /** With the pattern absent both functions return the source unchanged */
  lemma AbsentIsIdentity(source: string, pattern: string, injectedCode: string)
    requires !ShaderTools.Contains(source, pattern)
    ensures InjectBefore(source, pattern, injectedCode) == source
    ensures InjectAfter(source, pattern, injectedCode) == source
  {
    ShaderTools.ReplaceAbsent(source, pattern, injectedCode + "\n" + pattern);
    ShaderTools.ReplaceAbsent(source, pattern, pattern + "\n" + injectedCode);
  }
}
