/** The configuration object handed to the carousel constructor and the
    validation and defaulting it performs (src/index.ts, lines 42-49). */
module Options {
  import opened Wrappers

  /** The configuration as a caller may pass it: every key may be missing. */
  datatype Config = Config(
    itemClass: Option<string>,
    paneClass: Option<string>,
    slideSpeed: Option<real>,
    autoInterval: Option<real>,
    pointsClass: Option<string>)

  /** The settings the carousel keeps after validation. */
  datatype Settings = Settings(
    itemClass: string,
    paneClass: string,
    slideSpeed: real,
    autoInterval: real,
    pointsClass: Option<string>)

  /** The errors construction can end in. */
  datatype CarouselError =
    | ItemClassNotSpecified  // the explicit check on line 42
    | NoSlides               // a TypeError: the host holds no slide, so `pointsItems[0]` (with dots) or `cols[-1]` is undefined

  const DefaultPaneClass: string := "purePane"
  const DefaultSlideSpeed: real := 0.3

  /** JavaScript truthiness of an optional string: present and non-empty. */
  predicate Given(s: Option<string>) {
    s.Some? && s.value != ""
  }

  /** JavaScript truthiness of an optional number: present and non-zero. */
  predicate GivenNumber(x: Option<real>) {
    x.Some? && x.value != 0.0
  }

  /** Settings as validation leaves them: no key holds a falsy value except
      `autoInterval`, whose falsy value 0 means "no auto-advance". */
  predicate Normal(s: Settings) {
    s.itemClass != "" && s.paneClass != "" && s.slideSpeed != 0.0 &&
    (s.pointsClass.Some? ==> s.pointsClass.value != "")
  }

  /** The constructor's checks and defaults: it throws exactly when the config
      is missing or its `itemClass` is falsy, and otherwise replaces every
      falsy optional value by its default. */
  function Validate(config: Option<Config>): (r: Result<Settings, CarouselError>)
    ensures r.Failure? <==> config.None? || !Given(config.value.itemClass)
    ensures r.Failure? ==> r.error == ItemClassNotSpecified
    ensures r.Success? ==> Normal(r.value)
    ensures r.Success? ==> r.value.itemClass == config.value.itemClass.value
    ensures r.Success? ==>
      var c := config.value;
      && r.value.paneClass == (if Given(c.paneClass) then c.paneClass.value else DefaultPaneClass)
      && r.value.slideSpeed == (if GivenNumber(c.slideSpeed) then c.slideSpeed.value else DefaultSlideSpeed)
      && r.value.autoInterval == (if GivenNumber(c.autoInterval) then c.autoInterval.value else 0.0)
      && r.value.pointsClass == (if Given(c.pointsClass) then c.pointsClass else None)
  {
    if config.None? || !Given(config.value.itemClass) then
      Failure(ItemClassNotSpecified)
    else
      var c := config.value;
      Success(Settings(
        c.itemClass.value,
        if Given(c.paneClass) then c.paneClass.value else DefaultPaneClass,
        if GivenNumber(c.slideSpeed) then c.slideSpeed.value else DefaultSlideSpeed,
        if GivenNumber(c.autoInterval) then c.autoInterval.value else 0.0,
        if Given(c.pointsClass) then c.pointsClass else None))
  }

  /** The configuration that spells out every setting. */
  function AsConfig(s: Settings): Config {
    Config(Some(s.itemClass), Some(s.paneClass), Some(s.slideSpeed), Some(s.autoInterval), s.pointsClass)
  }

  /** Validation keeps settings that are already normal: handing a carousel's
      own settings back to the constructor reproduces them. */
  lemma ValidateRoundTrip(s: Settings)
    requires Normal(s)
    ensures Validate(Some(AsConfig(s))) == Success(s)
  {
  }

  /** Validation is idempotent. */
  lemma ValidateIdempotent(config: Option<Config>)
    requires Validate(config).Success?
    ensures Validate(Some(AsConfig(Validate(config).value))) == Validate(config)
  {
    ValidateRoundTrip(Validate(config).value);
  }
}
