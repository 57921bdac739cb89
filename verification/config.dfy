/** The `AutoConfig` record (src/auto-config.ts) as the parsed
    `.bebop-auto.yaml` hands it to the detector, the selector and the compiler.
    `None` stands for a missing or `null` key. */
module Config {
  import opened Wrappers
  import opened ContextTypes

  /** `language?: string | string[]`. */
  datatype LanguageOverride = OneLanguage(lang: string) | ManyLanguages(langs: seq<string>)

  datatype ProjectOverrides = ProjectOverrides(
    ptype: Option<ProjectType>,
    framework: Option<string>,
    language: Option<LanguageOverride>,
    isMonorepo: Option<bool>,
    serviceName: Option<string>)

  datatype AutoSelect = AutoSelect(
    typeSpecific: Option<bool>,
    frameworkSpecific: Option<bool>,
    serviceSpecific: Option<bool>,
    languageSpecific: Option<bool>,
    keywordSpecific: Option<bool>)

  datatype PacksConfig = PacksConfig(
    alwaysInclude: Option<seq<string>>,
    additional: Option<seq<string>>,
    autoSelect: Option<AutoSelect>,
    maxConstraints: Option<int>)

  datatype KeywordOverride = KeywordOverride(
    addPacks: Option<seq<string>>,
    removePacks: Option<seq<string>>)

  datatype CompilationConfig = CompilationConfig(
    maxConstraints: Option<int>,
    includeAllRules: Option<bool>,
    onKeywordTest: Option<KeywordOverride>,
    onKeywordSecurity: Option<KeywordOverride>,
    onKeywordPerformance: Option<KeywordOverride>)

  /** `keywords?: Record<string, string[]>` as its entries in `Object.entries`
      order. */
  type KeywordTable = seq<(string, seq<string>)>

  datatype AutoConfig = AutoConfig(
    project: Option<ProjectOverrides>,
    packs: Option<PacksConfig>,
    keywords: Option<KeywordTable>,
    compilation: Option<CompilationConfig>)

  /** `config?.packs?.auto_select`. */
  function AutoSelectOf(config: Option<AutoConfig>): Option<AutoSelect> {
    if config.Some? && config.value.packs.Some? then config.value.packs.value.autoSelect else None
  }
}
