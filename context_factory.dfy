/**
 * Rhino's `ContextFactory`: a factory that can be sealed against further
 * changes, a list of context listeners that can be switched off for good,
 * an application class loader that can be set once, the process-wide
 * global factory that can be replaced once, and the table of language
 * features each language version enables.
 *
 * Java exceptions are `Fail`/`Failure` values. The static fields of the
 * Java class live in a `Globals` object here.
 */
module ContextFactories {
  import opened Wrappers

  /** `IllegalArgumentException` and `IllegalStateException`. */
  datatype FactoryError = IllegalArgument | IllegalState

  // ---------------------------------------------------------------
  // Language versions and features (the constants of Rhino's `Context`)
  // ---------------------------------------------------------------

  const VERSION_DEFAULT := 0
  const VERSION_1_0 := 100
  const VERSION_1_1 := 110
  const VERSION_1_2 := 120
  const VERSION_1_6 := 160
  const VERSION_1_7 := 170
  const VERSION_ES6 := 200

  const FEATURE_NON_ECMA_GET_YEAR := 1
  const FEATURE_MEMBER_EXPR_AS_FUNCTION_NAME := 2
  const FEATURE_RESERVED_KEYWORD_AS_IDENTIFIER := 3
  const FEATURE_TO_STRING_AS_SOURCE := 4
  const FEATURE_PARENT_PROTO_PROPERTIES := 5
  const FEATURE_E4X := 6
  const FEATURE_DYNAMIC_SCOPE := 7
  const FEATURE_STRICT_VARS := 8
  const FEATURE_STRICT_EVAL := 9
  const FEATURE_LOCATION_INFORMATION_IN_ERROR := 10
  const FEATURE_STRICT_MODE := 11
  const FEATURE_WARNING_AS_ERROR := 12
  const FEATURE_ENHANCED_JAVA_ACCESS := 13
  const FEATURE_V8_EXTENSIONS := 14
  const FEATURE_OLD_UNDEF_NULL_THIS := 15
  const FEATURE_ENUMERATE_IDS_FIRST := 16
  const FEATURE_THREAD_SAFE_OBJECTS := 17
  const FEATURE_INTEGER_WITHOUT_DECIMAL_PLACE := 18
  const FEATURE_LITTLE_ENDIAN := 19
  const FEATURE_ENABLE_XML_SECURE_PARSING := 20

  /** `hasFeature`, for a context whose language version is `version`. */
  function HasFeature(version: int, featureIndex: int): (r: Result<bool, FactoryError>)
    ensures r.Failure? <==> !(FEATURE_NON_ECMA_GET_YEAR <= featureIndex <= FEATURE_ENABLE_XML_SECURE_PARSING)
    ensures r.Failure? ==> r.error == IllegalArgument
  {
    if featureIndex == FEATURE_NON_ECMA_GET_YEAR then
      Success(version == VERSION_1_0 || version == VERSION_1_1 || version == VERSION_1_2)
    else if featureIndex == FEATURE_MEMBER_EXPR_AS_FUNCTION_NAME then Success(false)
    else if featureIndex == FEATURE_RESERVED_KEYWORD_AS_IDENTIFIER then Success(true)
    else if featureIndex == FEATURE_TO_STRING_AS_SOURCE then Success(version == VERSION_1_2)
    else if featureIndex == FEATURE_PARENT_PROTO_PROPERTIES then Success(true)
    else if featureIndex == FEATURE_E4X then
      Success(version == VERSION_DEFAULT || version >= VERSION_1_6)
    else if featureIndex == FEATURE_DYNAMIC_SCOPE then Success(false)
    else if featureIndex == FEATURE_STRICT_VARS then Success(false)
    else if featureIndex == FEATURE_STRICT_EVAL then Success(false)
    else if featureIndex == FEATURE_LOCATION_INFORMATION_IN_ERROR then Success(false)
    else if featureIndex == FEATURE_STRICT_MODE then Success(false)
    else if featureIndex == FEATURE_WARNING_AS_ERROR then Success(false)
    else if featureIndex == FEATURE_ENHANCED_JAVA_ACCESS then Success(false)
    else if featureIndex == FEATURE_V8_EXTENSIONS then Success(true)
    else if featureIndex == FEATURE_OLD_UNDEF_NULL_THIS then Success(version <= VERSION_1_7)
    else if featureIndex == FEATURE_ENUMERATE_IDS_FIRST then Success(version >= VERSION_ES6)
    else if featureIndex == FEATURE_THREAD_SAFE_OBJECTS then Success(false)
    else if featureIndex == FEATURE_INTEGER_WITHOUT_DECIMAL_PLACE then Success(false)
    else if featureIndex == FEATURE_LITTLE_ENDIAN then Success(false)
    else if featureIndex == FEATURE_ENABLE_XML_SECURE_PARSING then Success(true)
    else Failure(IllegalArgument)
  }

  /** The features whose answer depends on the language version. */
  predicate VersionDependent(featureIndex: int) {
    featureIndex == FEATURE_NON_ECMA_GET_YEAR || featureIndex == FEATURE_TO_STRING_AS_SOURCE ||
    featureIndex == FEATURE_E4X || featureIndex == FEATURE_OLD_UNDEF_NULL_THIS ||
    featureIndex == FEATURE_ENUMERATE_IDS_FIRST
  }

  /** The non-ECMA `getYear` is on exactly for versions 1.0, 1.1 and 1.2. */
  lemma NonEcmaGetYear(version: int)
    ensures HasFeature(version, FEATURE_NON_ECMA_GET_YEAR).Success?
    ensures HasFeature(version, FEATURE_NON_ECMA_GET_YEAR).value <==> version in {VERSION_1_0, VERSION_1_1, VERSION_1_2}
  {
  }

  /** E4X is on exactly for the default version and from version 1.6 on. */
  lemma E4X(version: int)
    ensures HasFeature(version, FEATURE_E4X) == Success(true) <==> version == VERSION_DEFAULT || version >= VERSION_1_6
    ensures HasFeature(version, FEATURE_E4X) == Success(false) <==> version != VERSION_DEFAULT && version < VERSION_1_6
  {
  }

  /** Every other known feature answers the same for every version. */
  lemma VersionIndependent(featureIndex: int, v: int, w: int)
    requires !VersionDependent(featureIndex)
    ensures HasFeature(v, featureIndex) == HasFeature(w, featureIndex)
  {
  }

  /** Each of those does depend on the version: versions 1.2 and ES6
      disagree on every one of them. */
  lemma VersionsOneTwoAndES6(featureIndex: int)
    requires VersionDependent(featureIndex)
    ensures HasFeature(VERSION_1_2, featureIndex) != HasFeature(VERSION_ES6, featureIndex)
  {
  }

  // ---------------------------------------------------------------
  // Listener bags (Rhino's `Kit.addListener` / `Kit.removeListener`)
  // ---------------------------------------------------------------

  /** A context listener; only its identity matters here. */
  class Listener {
    constructor() {}
  }

  /** The last position holding `l`, or -1. */
  function LastIndexOf(ls: seq<Listener>, l: Listener): (r: int)
    ensures -1 <= r < |ls|
    ensures r == -1 <==> l !in ls
    ensures r >= 0 ==> ls[r] == l && l !in ls[r + 1..]
  {
    if ls == [] then -1
    else if ls[|ls| - 1] == l then |ls| - 1
    else
      var k := LastIndexOf(ls[..|ls| - 1], l);
      FrontSplit(ls, l, k);
      k
  }

  /** A bag whose last listener is not `l` holds `l` where its front does. */
  lemma FrontSplit(ls: seq<Listener>, l: Listener, k: int)
    requires ls != [] && ls[|ls| - 1] != l && -1 <= k < |ls| - 1
    ensures (l in ls) == (l in ls[..|ls| - 1])
    ensures k >= 0 ==> ls[k + 1..] == ls[..|ls| - 1][k + 1..] + [ls[|ls| - 1]]
  {
    if l in ls {
      var j :| 0 <= j < |ls| && ls[j] == l;
      assert ls[..|ls| - 1][j] == l;
    }
    assert ls == ls[..|ls| - 1] + [ls[|ls| - 1]];
  }

  /** A bag with one more listener, added last. */
  function WithListener(ls: seq<Listener>, l: Listener): (r: seq<Listener>)
    ensures |r| == |ls| + 1 && r[|ls|] == l && r[..|ls|] == ls
  {
    ls + [l]
  }

  /** A bag with its last occurrence of `l` taken out. */
  function WithoutListener(ls: seq<Listener>, l: Listener): seq<Listener> {
    var i := LastIndexOf(ls, l);
    if i == -1 then ls else ls[..i] + ls[i + 1..]
  }

  /** Removal takes out exactly one copy of a present listener, keeping the
      order of the rest, and leaves a bag without it as it is. */
  lemma WithoutListenerCount(ls: seq<Listener>, l: Listener)
    ensures l !in ls ==> WithoutListener(ls, l) == ls
    ensures l in ls ==> |WithoutListener(ls, l)| == |ls| - 1
    ensures multiset(WithoutListener(ls, l)) == multiset(ls) - multiset{l}
  {
    var i := LastIndexOf(ls, l);
    if i >= 0 {
      assert ls == ls[..i] + [l] + ls[i + 1..];
      assert multiset(ls) == multiset(ls[..i]) + multiset{l} + multiset(ls[i + 1..]);
    } else {
      assert multiset(ls)[l] == 0;
    }
  }

  /** Removing a listener right after adding it restores the bag, even when
      the listener was already in it. */
  lemma RemoveUndoesAdd(ls: seq<Listener>, l: Listener)
    ensures WithoutListener(WithListener(ls, l), l) == ls
  {
    var added := WithListener(ls, l);
    assert LastIndexOf(added, l) == |ls|;
    assert added[..|ls|] + added[|ls| + 1..] == ls;
  }

  // ---------------------------------------------------------------
  // The factory
  // ---------------------------------------------------------------

  /** A class loader; `resolvesRhino` is whether it can load Rhino's own
      classes (`Kit.testIfCanLoadRhinoClasses`). */
  class ClassLoader {
    const resolvesRhino: bool

    constructor(resolvesRhino: bool)
      ensures this.resolvesRhino == resolvesRhino
    {
      this.resolvesRhino := resolvesRhino;
    }
  }

  class ContextFactory {
    var sealed: bool
    var listeners: seq<Listener>
    var disabledListening: bool
    var applicationClassLoader: ClassLoader?

    /** Once listening is disabled, there are no listeners. */
    predicate Valid()
      reads this`disabledListening, this`listeners
    {
      disabledListening ==> listeners == []
    }

    constructor()
      ensures !sealed && listeners == [] && !disabledListening && applicationClassLoader == null
      ensures Valid()
    {
      sealed := false;
      listeners := [];
      disabledListening := false;
      applicationClassLoader := null;
    }

    /** `checkNotSealed`: an `IllegalStateException` exactly when sealed. */
    function CheckNotSealed(): (r: Outcome<FactoryError>)
      reads this`sealed
      ensures r.Fail? <==> sealed
      ensures r.Fail? ==> r.error == IllegalState
    {
      if sealed then Fail(IllegalState) else Pass
    }

    /** `seal`: seals the factory; a second seal throws. */
    method Seal() returns (r: Outcome<FactoryError>)
      modifies this`sealed
      ensures sealed
      ensures r == old(CheckNotSealed())
    {
      r := CheckNotSealed();
      if r.Pass? {
        sealed := true;
      }
    }

    /** `addListener`: a sealed factory or disabled listening throws an
        `IllegalStateException`; a null listener an `IllegalArgumentException`;
        otherwise the listener is added last. */
    method AddListener(listener: Listener?) returns (r: Outcome<FactoryError>)
      modifies this`listeners
      ensures sealed || disabledListening ==> r == Fail(IllegalState) && listeners == old(listeners)
      ensures !sealed && !disabledListening && listener == null ==>
        r == Fail(IllegalArgument) && listeners == old(listeners)
      ensures !sealed && !disabledListening && listener != null ==>
        r == Pass && listeners == WithListener(old(listeners), listener)
      ensures old(Valid()) ==> Valid()
    {
      r := CheckNotSealed();
      if r.Fail? {
        return;
      }
      if disabledListening {
        return Fail(IllegalState);
      }
      if listener == null {
        return Fail(IllegalArgument);
      }
      listeners := WithListener(listeners, listener);
    }

    /** `removeListener`: the same exceptions as `addListener`; otherwise the
        last occurrence of the listener is removed, if there is one. */
    method RemoveListener(listener: Listener?) returns (r: Outcome<FactoryError>)
      modifies this`listeners
      ensures sealed || disabledListening ==> r == Fail(IllegalState) && listeners == old(listeners)
      ensures !sealed && !disabledListening && listener == null ==>
        r == Fail(IllegalArgument) && listeners == old(listeners)
      ensures !sealed && !disabledListening && listener != null ==>
        r == Pass && listeners == WithoutListener(old(listeners), listener)
      ensures old(Valid()) ==> Valid()
    {
      r := CheckNotSealed();
      if r.Fail? {
        return;
      }
      if disabledListening {
        return Fail(IllegalState);
      }
      if listener == null {
        return Fail(IllegalArgument);
      }
      listeners := WithoutListener(listeners, listener);
    }

    /** `disableContextListening`: unless sealed, listening is switched off
        and every listener dropped. */
    method DisableContextListening() returns (r: Outcome<FactoryError>)
      modifies this`disabledListening, this`listeners
      ensures r == CheckNotSealed()
      ensures sealed ==> disabledListening == old(disabledListening) && listeners == old(listeners)
      ensures !sealed ==> disabledListening && listeners == []
      ensures old(Valid()) ==> Valid()
    {
      r := CheckNotSealed();
      if r.Fail? {
        return;
      }
      disabledListening := true;
      listeners := [];
    }

    /** `initApplicationClassLoader`: a null loader, or one that cannot load
        Rhino's classes, throws an `IllegalArgumentException`; a loader
        already set, or a sealed factory, an `IllegalStateException`;
        otherwise the loader is set. */
    method InitApplicationClassLoader(loader: ClassLoader?) returns (r: Outcome<FactoryError>)
      modifies this`applicationClassLoader
      ensures loader == null || !loader.resolvesRhino ==>
        r == Fail(IllegalArgument) && applicationClassLoader == old(applicationClassLoader)
      ensures loader != null && loader.resolvesRhino && (old(applicationClassLoader) != null || sealed) ==>
        r == Fail(IllegalState) && applicationClassLoader == old(applicationClassLoader)
      ensures loader != null && loader.resolvesRhino && old(applicationClassLoader) == null && !sealed ==>
        r == Pass && applicationClassLoader == loader
    {
      if loader == null || !loader.resolvesRhino {
        return Fail(IllegalArgument);
      }
      if applicationClassLoader != null {
        return Fail(IllegalState);
      }
      r := CheckNotSealed();
      if r.Fail? {
        return;
      }
      applicationClassLoader := loader;
    }
  }

  // ---------------------------------------------------------------
  // The global factory (the static fields of `ContextFactory`)
  // ---------------------------------------------------------------

  class Globals {
    var hasCustomGlobal: bool
    var global: ContextFactory

    /** The class as loaded: a fresh default factory, no custom global. */
    constructor()
      ensures !hasCustomGlobal && fresh(global)
      ensures !global.sealed && global.listeners == [] && !global.disabledListening && global.applicationClassLoader == null
    {
      hasCustomGlobal := false;
      global := new ContextFactory();
    }

    /** `initGlobal`: a null factory throws an `IllegalArgumentException`;
        once a custom global exists, an `IllegalStateException`; otherwise
        the factory becomes the global. */
    method InitGlobal(factory: ContextFactory?) returns (r: Outcome<FactoryError>)
      modifies this
      ensures factory == null ==> r == Fail(IllegalArgument) && unchanged(this)
      ensures factory != null && old(hasCustomGlobal) ==> r == Fail(IllegalState) && unchanged(this)
      ensures factory != null && !old(hasCustomGlobal) ==> r == Pass && hasCustomGlobal && global == factory
    {
      if factory == null {
        return Fail(IllegalArgument);
      }
      if hasCustomGlobal {
        return Fail(IllegalState);
      }
      hasCustomGlobal := true;
      global := factory;
      r := Pass;
    }

    /** `getGlobalSetter`: once a custom global exists, an
        `IllegalStateException`; otherwise the global counts as custom from
        now on and a setter for it is handed out. */
    method GetGlobalSetter() returns (r: Result<GlobalSetter, FactoryError>)
      modifies this`hasCustomGlobal
      ensures old(hasCustomGlobal) ==> r == Failure(IllegalState) && hasCustomGlobal
      ensures !old(hasCustomGlobal) ==> r.Success? && hasCustomGlobal && fresh(r.value) && r.value.globals == this
    {
      if hasCustomGlobal {
        return Failure(IllegalState);
      }
      hasCustomGlobal := true;
      var setter := new GlobalSetter(this);
      r := Success(setter);
    }
  }

  /** The setter `getGlobalSetter` hands out. */
  class GlobalSetter {
    const globals: Globals

    constructor(globals: Globals)
      ensures this.globals == globals
    {
      this.globals := globals;
    }

    /** Installs the factory as the global; null installs a fresh default one. */
    method SetContextFactoryGlobal(factory: ContextFactory?)
      modifies globals`global
      ensures factory != null ==> globals.global == factory
      ensures factory == null ==> fresh(globals.global)
      ensures factory == null ==> !globals.global.sealed && globals.global.listeners == []
      ensures factory == null ==> !globals.global.disabledListening && globals.global.applicationClassLoader == null
    {
      if factory == null {
        globals.global := new ContextFactory();
      } else {
        globals.global := factory;
      }
    }

    method GetContextFactoryGlobal() returns (r: ContextFactory)
      ensures r == globals.global
    {
      r := globals.global;
    }
  }
}
