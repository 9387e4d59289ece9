/**
 * OcrManager: which OCR engine is in use, whether an upgrade or an install is
 * due, and which OCR parameters apply by default. Engines are kept in a fixed
 * preference order, newest first; every question is a first-match or an
 * any/all test over that list. Engine facts and the app/user configuration
 * are inputs here.
 */
module Ocr {
  import opened Wrappers

  datatype EngineId = Tesseract400Beta4 | Tesseract304 | Tesseract304Xp | Tesseract302 | TesseractSystem

  datatype Language = Language(name: string, code: string)

  /** What IOcrEngine reports about itself. */
  datatype OcrEngine = OcrEngine(id: EngineId, isSupported: bool, isInstalled: bool, canInstall: bool,
                                 installedLanguages: seq<Language>)

  datatype OcrManager = OcrManager(engines: seq<OcrEngine>)

  /** The constructor: the engines in preference order, newest first. */
  function NewOcrManager(t302: OcrEngine, t304: OcrEngine, t304Xp: OcrEngine, t400B4: OcrEngine, tsys: OcrEngine)
    : (m: OcrManager)
    ensures |m.engines| == 5
    ensures m.engines[0] == t400B4 && m.engines[1] == t304 && m.engines[2] == t304Xp
    ensures m.engines[3] == t302 && m.engines[4] == tsys
  {
    OcrManager([t400B4, t304, t304Xp, t302, tsys])
  }

  /** `FirstOrDefault(p)` as a position: the first engine satisfying `p`, or none. */
  function FirstIndex(engines: seq<OcrEngine>, p: OcrEngine -> bool): (r: Option<nat>)
    ensures r.Some? ==> r.value < |engines| && p(engines[r.value])
    ensures r.Some? ==> forall j :: 0 <= j < r.value ==> !p(engines[j])
    ensures r.None? ==> forall j :: 0 <= j < |engines| ==> !p(engines[j])
    decreases |engines|
  {
    if |engines| == 0 then None
    else if p(engines[0]) then Some(0)
    else match FirstIndex(engines[1..], p)
      case None => None
      case Some(i) => Some(i + 1)
  }

  function FirstWhere(engines: seq<OcrEngine>, p: OcrEngine -> bool): (r: Option<OcrEngine>)
    ensures r.Some? <==> exists i :: 0 <= i < |engines| && p(engines[i])
    ensures r.Some? ==> exists i :: 0 <= i < |engines| && engines[i] == r.value && p(r.value)
                                  && forall j :: 0 <= j < i ==> !p(engines[j])
  {
    match FirstIndex(engines, p)
    case None => None
    case Some(i) => Some(engines[i])
  }

  predicate Supported(e: OcrEngine) { e.isSupported }
  predicate HasLanguages(e: OcrEngine) { |e.installedLanguages| > 0 }
  predicate Usable(e: OcrEngine) { e.isSupported && e.isInstalled && HasLanguages(e) }
  predicate InstalledWithLanguages(e: OcrEngine) { e.isInstalled && HasLanguages(e) }
  predicate Installable(e: OcrEngine) { e.isSupported && e.canInstall }

  predicate AnyInstalled(m: OcrManager) {
    exists i :: 0 <= i < |m.engines| && m.engines[i].isInstalled
  }

  /** IsReady: some engine is supported, installed and has a language. */
  predicate IsReady(m: OcrManager): (r: bool)
    ensures r <==> ActiveEngine(m).Some?
  {
    exists i :: 0 <= i < |m.engines| && Usable(m.engines[i])
  }

  /** IsNewestReady: judged on the first supported engine only; false when none is supported. */
  predicate IsNewestReady(m: OcrManager): (r: bool)
    ensures (forall i :: 0 <= i < |m.engines| ==> !Supported(m.engines[i])) ==> !r
    ensures r ==> InstalledEngine(m).Some?
  {
    match FirstIndex(m.engines, Supported)
    case None => false
    case Some(i) => InstalledWithLanguages(m.engines[i])
  }

  /** CanUpgrade: the newest engine is not ready but something is installed. */
  predicate CanUpgrade(m: OcrManager): (r: bool)
    ensures !AnyInstalled(m) ==> !r
    ensures MustInstallPackage(m) ==> !r
  {
    !IsNewestReady(m) && AnyInstalled(m)
  }

  /** MustUpgrade: no engine is usable but something is installed. */
  predicate MustUpgrade(m: OcrManager): (r: bool)
    ensures r ==> ActiveEngine(m).None? && !MustInstallPackage(m)
  {
    !IsReady(m) && AnyInstalled(m)
  }

  /** MustInstallPackage: no engine is installed and no supported engine can be installed. */
  predicate MustInstallPackage(m: OcrManager): (r: bool)
    ensures r ==> EngineToInstall(m).None? && InstalledEngine(m).None?
  {
    forall i :: 0 <= i < |m.engines| ==> !Installable(m.engines[i]) && !m.engines[i].isInstalled
  }

  /** ActiveEngine: the first usable engine, null when there is none. */
  function ActiveEngine(m: OcrManager): (r: Option<OcrEngine>)
    ensures r.None? <==> forall i :: 0 <= i < |m.engines| ==> !Usable(m.engines[i])
    ensures r.Some? ==> Usable(r.value)
    ensures r.Some? ==> exists i :: 0 <= i < |m.engines| && m.engines[i] == r.value
                                  && forall j :: 0 <= j < i ==> !Usable(m.engines[j])
  {
    FirstWhere(m.engines, Usable)
  }

  /** InstalledEngine: the first installed engine with a language, supported or not. */
  function InstalledEngine(m: OcrManager): (r: Option<OcrEngine>)
    ensures r.None? <==> forall i :: 0 <= i < |m.engines| ==> !InstalledWithLanguages(m.engines[i])
    ensures r.Some? ==> InstalledWithLanguages(r.value)
    ensures r.Some? ==> exists i :: 0 <= i < |m.engines| && m.engines[i] == r.value
                                  && forall j :: 0 <= j < i ==> !InstalledWithLanguages(m.engines[j])
  {
    FirstWhere(m.engines, InstalledWithLanguages)
  }

  /** EngineToInstall: the first supported engine that can be installed. */
  function EngineToInstall(m: OcrManager): (r: Option<OcrEngine>)
    ensures r.None? <==> forall i :: 0 <= i < |m.engines| ==> !Installable(m.engines[i])
    ensures r.Some? ==> Installable(r.value)
    ensures r.Some? ==> exists i :: 0 <= i < |m.engines| && m.engines[i] == r.value
                                  && forall j :: 0 <= j < i ==> !Installable(m.engines[j])
  {
    FirstWhere(m.engines, Installable)
  }

  /** IsReady holds exactly when there is an active engine. */
  lemma IsReadyIffActiveEngine(m: OcrManager)
    ensures IsReady(m) <==> ActiveEngine(m).Some?
  {
  }

  /** The newest supported engine being ready makes the manager ready. */
  lemma NewestReadyImpliesReady(m: OcrManager)
    ensures IsNewestReady(m) ==> IsReady(m)
  {
    match FirstIndex(m.engines, Supported)
    case None =>
    case Some(i) =>
      if InstalledWithLanguages(m.engines[i]) {
        assert Usable(m.engines[i]);
      }
  }

  /** Whenever an upgrade is required, one is also offered. */
  lemma MustUpgradeImpliesCanUpgrade(m: OcrManager)
    ensures MustUpgrade(m) ==> CanUpgrade(m)
  {
    NewestReadyImpliesReady(m);
  }

  /** A package must be installed exactly when nothing is installed and nothing can be installed. */
  lemma MustInstallPackageIff(m: OcrManager)
    ensures MustInstallPackage(m) <==> !AnyInstalled(m) && EngineToInstall(m).None?
  {
  }

  /** When a package must be installed, no engine is active, installed, or due an upgrade. */
  lemma MustInstallPackageExcludes(m: OcrManager)
    requires MustInstallPackage(m)
    ensures EngineToInstall(m).None? && ActiveEngine(m).None? && InstalledEngine(m).None?
    ensures !IsReady(m) && !MustUpgrade(m) && !CanUpgrade(m)
  {
  }

  /** An active engine is also an installed engine, though not necessarily the same one. */
  lemma ActiveEngineImpliesInstalledEngine(m: OcrManager)
    ensures ActiveEngine(m).Some? ==> InstalledEngine(m).Some?
  {
  }

  // ---- Default OCR parameters ----

  datatype OcrState = Default | Enabled | Disabled

  /** OcrMode.Default is the only mode the manager names; others are carried through unchanged. */
  datatype OcrMode = DefaultMode | OtherMode(id: nat)

  datatype OcrParams = OcrParams(languageCode: Option<string>, mode: OcrMode)

  datatype AppConfig = AppConfig(ocrState: OcrState, ocrDefaultLanguage: Option<string>, ocrDefaultMode: OcrMode)

  datatype UserConfig = UserConfig(enableOcr: bool, ocrLanguageCode: Option<string>, ocrMode: OcrMode)

  /** char.IsWhiteSpace: the Unicode space separators, line and paragraph separators, and the C0/C1 layout controls. */
  predicate IsWhiteSpace(c: char) {
    c == ' ' || ('\t' <= c <= '\r') || c == '\U{0085}' || c == '\U{00A0}' || c == '\U{1680}'
    || ('\U{2000}' <= c <= '\U{200A}') || c == '\U{2028}' || c == '\U{2029}' || c == '\U{202F}'
    || c == '\U{205F}' || c == '\U{3000}'
  }

  predicate IsNullOrWhiteSpace(s: Option<string>) {
    s.None? || forall i :: 0 <= i < |s.value| ==> IsWhiteSpace(s.value[i])
  }

  function AppLevelParams(app: AppConfig): (r: Option<OcrParams>)
    ensures r.None? <==> IsNullOrWhiteSpace(app.ocrDefaultLanguage)
    ensures r.Some? ==> r.value == OcrParams(app.ocrDefaultLanguage, app.ocrDefaultMode)
  {
    if !IsNullOrWhiteSpace(app.ocrDefaultLanguage) then Some(OcrParams(app.ocrDefaultLanguage, app.ocrDefaultMode))
    else None
  }

  function UserLevelParams(user: UserConfig): (r: Option<OcrParams>)
    ensures r.None? <==> IsNullOrWhiteSpace(user.ocrLanguageCode)
    ensures r.Some? ==> r.value == OcrParams(user.ocrLanguageCode, user.ocrMode)
  {
    if !IsNullOrWhiteSpace(user.ocrLanguageCode) then Some(OcrParams(user.ocrLanguageCode, user.ocrMode))
    else None
  }

  /** Ordinal (code point by code point) string order; a proper prefix comes first. */
  predicate StrLess(a: string, b: string)
    decreases |a|
  {
    if |a| == 0 then |b| > 0
    else if |b| == 0 then false
    else if a[0] != b[0] then a[0] < b[0]
    else StrLess(a[1..], b[1..])
  }

  lemma {:induction false} StrLessIrreflexive(a: string)
    ensures !StrLess(a, a)
    decreases |a|
  {
    if |a| > 0 { StrLessIrreflexive(a[1..]); }
  }

  lemma {:induction false} StrLessTransitive(a: string, b: string, c: string)
    requires StrLess(a, b) && StrLess(b, c)
    ensures StrLess(a, c)
    decreases |a|
  {
    if |a| > 0 && a[0] == b[0] && b[0] == c[0] {
      StrLessTransitive(a[1..], b[1..], c[1..]);
    }
  }

  lemma {:induction false} StrLessTotal(a: string, b: string)
    requires a != b
    ensures StrLess(a, b) || StrLess(b, a)
    decreases |a|
  {
    if |a| > 0 && |b| > 0 && a[0] == b[0] {
      assert a == [a[0]] + a[1..] && b == [b[0]] + b[1..];
      StrLessTotal(a[1..], b[1..]);
    }
  }

  /**
   * `OrderBy(x => x.Name).First()` as a position: the first language whose
   * name no other name precedes (OrderBy is stable, so among equal names the
   * earliest wins).
   */
  function LeastByName(langs: seq<Language>): (i: nat)
    requires |langs| > 0
    ensures i < |langs|
    ensures forall j :: 0 <= j < |langs| ==> !StrLess(langs[j].name, langs[i].name)
    ensures forall j :: 0 <= j < i ==> StrLess(langs[i].name, langs[j].name)
    decreases |langs|
  {
    if |langs| == 1 then
      StrLessIrreflexive(langs[0].name);
      0
    else
      var prefix := langs[..|langs| - 1];
      var k := LeastByName(prefix);
      var last := |langs| - 1;
      if StrLess(langs[last].name, langs[k].name) then
        LeastIsBelowAll(prefix, k, langs[last].name);
        StrLessIrreflexive(langs[last].name);
        last
      else
        StrLessIrreflexive(langs[k].name);
        k
  }

  lemma LeastIsBelowAll(prefix: seq<Language>, k: nat, name: string)
    requires k < |prefix|
    requires forall j :: 0 <= j < |prefix| ==> !StrLess(prefix[j].name, prefix[k].name)
    requires StrLess(name, prefix[k].name)
    ensures forall j :: 0 <= j < |prefix| ==> StrLess(name, prefix[j].name) && !StrLess(prefix[j].name, name)
  {
    forall j | 0 <= j < |prefix|
      ensures StrLess(name, prefix[j].name) && !StrLess(prefix[j].name, name)
    {
      if prefix[j].name == prefix[k].name {
      } else {
        StrLessTotal(prefix[j].name, prefix[k].name);
        StrLessTransitive(name, prefix[k].name, prefix[j].name);
      }
      if StrLess(prefix[j].name, name) {
        StrLessTransitive(name, prefix[j].name, name);
        StrLessIrreflexive(name);
      }
    }
  }

  /**
   * ArbitraryParams: the code of the active engine's least-named language, the
   * first of them when several share that name (OrderBy is stable); a null
   * code when no engine is active.
   */
  function ArbitraryParams(m: OcrManager): (r: OcrParams)
    ensures r.mode == DefaultMode
    ensures r.languageCode.None? <==> ActiveEngine(m).None?
    ensures r.languageCode.Some? ==>
              var langs := ActiveEngine(m).value.installedLanguages;
              exists i :: 0 <= i < |langs| && langs[i].code == r.languageCode.value
                       && (forall j :: 0 <= j < |langs| ==> !StrLess(langs[j].name, langs[i].name))
                       && (forall j :: 0 <= j < i ==> StrLess(langs[i].name, langs[j].name))
  {
    match ActiveEngine(m)
    case None => OcrParams(None, DefaultMode)
    case Some(e) => OcrParams(Some(e.installedLanguages[LeastByName(e.installedLanguages)].code), DefaultMode)
  }

  /** Two languages named alike: the earlier one's code is chosen, as a stable sort keeps it first. */
  lemma EqualNamesKeepListOrder(e: OcrEngine)
    requires e.isSupported && e.isInstalled
    requires e.installedLanguages == [Language("A", "x"), Language("A", "y")]
    ensures ArbitraryParams(OcrManager([e])).languageCode == Some("x")
  {
    var langs := e.installedLanguages;
    StrLessIrreflexive("A");
    assert ActiveEngine(OcrManager([e])) == Some(e);
    var i := LeastByName(langs);
    assert i == 0;
  }

  /** `a ?? b` for OCR parameters. */
  function Coalesce(a: Option<OcrParams>, b: Option<OcrParams>): Option<OcrParams> {
    if a.Some? then a else b
  }

  /**
   * DefaultParams: null when OCR is disabled by the app; with the app forcing
   * OCR on, app settings win over user settings over an arbitrary choice;
   * otherwise, if the user enabled OCR, user settings win over app settings
   * over an arbitrary choice; else null.
   */
  function DefaultParams(m: OcrManager, app: AppConfig, user: UserConfig): (r: Option<OcrParams>)
    ensures r.None? <==> app.ocrState == Disabled || (app.ocrState != Enabled && !user.enableOcr)
    ensures r.Some? && app.ocrState == Enabled ==>
              r == Coalesce(AppLevelParams(app), Coalesce(UserLevelParams(user), Some(ArbitraryParams(m))))
    ensures r.Some? && app.ocrState != Enabled ==>
              r == Coalesce(UserLevelParams(user), Coalesce(AppLevelParams(app), Some(ArbitraryParams(m))))
  {
    if app.ocrState == Disabled then None
    else if app.ocrState == Enabled then
      Coalesce(AppLevelParams(app), Coalesce(UserLevelParams(user), Some(ArbitraryParams(m))))
    else if user.enableOcr then
      Coalesce(UserLevelParams(user), Coalesce(AppLevelParams(app), Some(ArbitraryParams(m))))
    else None
  }

  /**
   * Whenever default parameters exist, their language is a configured
   * non-blank code or the code of one of the active engine's languages; the
   * code is null only when no engine is ready.
   */
  lemma DefaultParamsLanguage(m: OcrManager, app: AppConfig, user: UserConfig)
    requires DefaultParams(m, app, user).Some?
    ensures var p := DefaultParams(m, app, user).value;
            || (p.languageCode == app.ocrDefaultLanguage && !IsNullOrWhiteSpace(p.languageCode))
            || (p.languageCode == user.ocrLanguageCode && !IsNullOrWhiteSpace(p.languageCode))
            || (p.languageCode.Some? && ActiveEngine(m).Some?
                && exists l :: l in ActiveEngine(m).value.installedLanguages && l.code == p.languageCode.value)
            || (p.languageCode.None? && !IsReady(m))
  {
    var p := DefaultParams(m, app, user).value;
    if p == ArbitraryParams(m) && ActiveEngine(m).Some? {
      var langs := ActiveEngine(m).value.installedLanguages;
      var i :| 0 <= i < |langs| && langs[i].code == p.languageCode.value;
      assert langs[i] in langs;
    }
  }

  /** With the app forcing OCR on and a non-blank app language, the app's language and mode are used. */
  lemma AppOverrideWins(m: OcrManager, app: AppConfig, user: UserConfig)
    requires app.ocrState == Enabled && !IsNullOrWhiteSpace(app.ocrDefaultLanguage)
    ensures DefaultParams(m, app, user) == Some(OcrParams(app.ocrDefaultLanguage, app.ocrDefaultMode))
  {
  }

  /** Without an app override, a user who enabled OCR with a non-blank language gets that language and mode. */
  lemma UserSettingWins(m: OcrManager, app: AppConfig, user: UserConfig)
    requires app.ocrState == Default && user.enableOcr && !IsNullOrWhiteSpace(user.ocrLanguageCode)
    ensures DefaultParams(m, app, user) == Some(OcrParams(user.ocrLanguageCode, user.ocrMode))
  {
  }
}
