/** Theme-to-prompt dispatch of `PoetryChatbot.generate_poem` and the topic
    catalogue printed by `show_poem_topics`. */
module Prompts {
  import opened PyText

  /** The branch of the if/elif chain a theme falls into. */
  datatype Category =
    | Love        // exactly "love"
    | Home        // exactly "home"
    | Season      // spring, summer, autumn, winter
    | Nature      // ocean, mountains, forest
    | TimeOfDay   // sunrise, sunset, night
    | Emotion     // joy, hope
    | Place       // garden, city
    | Generic     // every other theme

  /** The theme lists of the `elif` tests, one per templated group. */
  const SeasonThemes: seq<string> := ["spring", "summer", "autumn", "winter"]
  const NatureThemes: seq<string> := ["ocean", "mountains", "forest"]
  const TimeOfDayThemes: seq<string> := ["sunrise", "sunset", "night"]
  const EmotionThemes: seq<string> := ["joy", "hope"]
  const PlaceThemes: seq<string> := ["garden", "city"]

  /** First match wins; every test is an exact, case-sensitive comparison. */
  function Classify(theme: string): Category {
    if theme == "love" then Love
    else if theme == "home" then Home
    else if theme in SeasonThemes then Season
    else if theme in NatureThemes then Nature
    else if theme in TimeOfDayThemes then TimeOfDay
    else if theme in EmotionThemes then Emotion
    else if theme in PlaceThemes then Place
    else Generic
  }

  const LoveTemplate: string :=
    "Write a short, emotional poem about love. Focus on feelings of affection, connection, and deep emotion.\n"
    + "The poem should have a clear structure and use poetic language.\n"
    + "Avoid talking about songs or music.\n"
    + "Focus on the emotion itself:\n\n"

  const HomeTemplate: string :=
    "Write a short poem about home. Focus on feelings of comfort, family, and belonging.\n"
    + "The poem should describe what makes a home special.\n"
    + "Use specific details and emotional language:\n\n"

  /** The text a category's template puts before the interpolated theme. */
  function Before(c: Category): string {
    match c
    case Nature => "Write a short poem about the "
    case Place => "Write a short poem about a "
    case _ => "Write a short poem about "
  }

  /** The text a category's template puts after the interpolated theme. */
  function After(c: Category): string {
    match c
    case Season =>
      ". Describe its unique weather, colors, and feelings.\n"
      + "The poem should capture the essence of this season.\n"
      + "Use vivid imagery and sensory details:\n\n"
    case Nature =>
      ". Describe its natural beauty and the emotions it evokes.\n"
      + "The poem should use rich imagery and sensory details.\n"
      + "Focus on the majesty of nature:\n\n"
    case TimeOfDay =>
      ". Capture its magical atmosphere and the feelings it brings.\n"
      + "The poem should use vivid imagery and emotional language.\n"
      + "Focus on the beauty of this time:\n\n"
    case Emotion =>
      ". Express deep emotions and personal feelings.\n"
      + "The poem should be uplifting and meaningful.\n"
      + "Use emotional language and imagery:\n\n"
    case Place =>
      ". Describe its unique atmosphere and what makes it special.\n"
      + "The poem should use vivid imagery and sensory details.\n"
      + "Focus on the beauty of this place:\n\n"
    case _ =>
      ". Focus on specific details and emotions.\n"
      + "The poem should have a clear structure and use poetic language.\n"
      + "Use vivid imagery and emotional language:\n\n"
  }

  /** The prompt handed to the poem generator for `theme`. It is never empty, so
      removing its echo from the generated text always removes something. */
  function Prompt(theme: string): (r: string)
    ensures r != []
  {
    var c := Classify(theme);
    match c
    case Love => LoveTemplate
    case Home => HomeTemplate
    case _ => Before(c) + theme + After(c)
  }

  /** A group of the topic catalogue: its heading and its topics, in order. */
  datatype TopicGroup = TopicGroup(title: string, topics: seq<string>)

  /** What `show_poem_topics` lists, in the order it lists it. */
  const Catalog: seq<TopicGroup> := [
    TopicGroup("Seasons", ["spring", "summer", "autumn", "winter"]),
    TopicGroup("Nature", ["ocean", "mountains", "forest"]),
    TopicGroup("Time of Day", ["sunrise", "sunset", "night"]),
    TopicGroup("Emotions", ["love", "joy", "hope"]),
    TopicGroup("Places", ["home", "garden", "city"])
  ]

  /** Every topic of the groups, in catalogue order. */
  function Topics(groups: seq<TopicGroup>): (r: seq<string>)
    ensures forall g, t :: g in groups && t in g.topics ==> t in r
    ensures forall t :: t in r ==> exists g :: g in groups && t in g.topics
  {
    if groups == [] then [] else groups[0].topics + Topics(groups[1..])
  }

  /** A theme gets a dedicated template exactly when the catalogue lists it. */
  lemma CatalogIsDispatched(theme: string)
    ensures Classify(theme) != Generic <==> theme in Topics(Catalog)
  {
    CatalogOrder();
    assert theme in Topics(Catalog) <==>
      theme in SeasonThemes || theme in NatureThemes || theme in TimeOfDayThemes || theme == "love"
      || theme in EmotionThemes || theme == "home" || theme in PlaceThemes;
  }

  /** The catalogue lists the dispatch lists in dispatch order under their headings,
      with "love" heading the emotions and "home" heading the places. */
  lemma CatalogOrder()
    ensures |Catalog| == 5
    ensures Catalog[0] == TopicGroup("Seasons", SeasonThemes)
    ensures Catalog[1] == TopicGroup("Nature", NatureThemes)
    ensures Catalog[2] == TopicGroup("Time of Day", TimeOfDayThemes)
    ensures Catalog[3] == TopicGroup("Emotions", ["love"] + EmotionThemes)
    ensures Catalog[4] == TopicGroup("Places", ["home"] + PlaceThemes)
    ensures Topics(Catalog)
      == SeasonThemes + NatureThemes + TimeOfDayThemes + ["love"] + EmotionThemes + ["home"] + PlaceThemes
  {
    assert Topics(Catalog) == Catalog[0].topics + Catalog[1].topics + Catalog[2].topics
      + Catalog[3].topics + Catalog[4].topics;
  }

  /** Every theme except "love" and "home" appears verbatim in its prompt. */
  lemma PromptMentionsTheme(theme: string)
    requires theme != "love" && theme != "home"
    ensures Contains(Prompt(theme), theme)
  {
    var c := Classify(theme);
    ContainsInfix(Before(c), theme, After(c));
  }

  /** "love" and "home" get fixed templates; the "love" one forbids songs and music. */
  lemma FixedTemplates()
    ensures Prompt("love") == LoveTemplate && Prompt("home") == HomeTemplate
    ensures Contains(Prompt("love"), "Avoid talking about songs or music.")
  {
    var before := "Write a short, emotional poem about love. Focus on feelings of affection, connection, and deep emotion.\n"
      + "The poem should have a clear structure and use poetic language.\n";
    var after := "\nFocus on the emotion itself:\n\n";
    assert LoveTemplate == before + "Avoid talking about songs or music." + after;
    ContainsInfix(before, "Avoid talking about songs or music.", after);
  }

  /** Matching is case-sensitive and exact: near misses fall through to the fallback. */
  lemma ExactMatchOnly()
    ensures Classify("Love") == Generic && Classify("robot") == Generic
    ensures Classify("Spring") == Generic && Classify(" home") == Generic
    ensures Prompt("robot") == Before(Generic) + "robot" + After(Generic)
  {
  }

  /** The category of each listed theme. */
  lemma ListedThemes(theme: string)
    ensures theme in SeasonThemes <==> Classify(theme) == Season
    ensures theme in NatureThemes <==> Classify(theme) == Nature
    ensures theme in TimeOfDayThemes <==> Classify(theme) == TimeOfDay
    ensures theme in EmotionThemes <==> Classify(theme) == Emotion
    ensures theme in PlaceThemes <==> Classify(theme) == Place
  {
  }
}
