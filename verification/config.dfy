/** Configuration (utils/config.py): fixed constants, the settings read from
    the process environment with their defaults, and the start-up check. */
module Config {
  import opened Wrappers

  const ChromaCollectionJd: string := "job_descriptions"
  const ChromaCollectionCv: string := "candidate_cvs"
  const EmbeddingModel: string := "text-embedding-3-small"
  const LlmModel: string := "gpt-4o-mini"

  /** Splitter budget, in characters. */
  const ChunkSize: nat := 500
  const ChunkOverlap: nat := 50

  /** A successfully parsed match score at or above this is shortlisted. */
  const MinMatchScore: real := 60.0
  /** Declared but read nowhere; the shortlist cap is a literal 10. */
  const TopNCandidates: nat := 10

  const DefaultDatabaseUrl: string := "sqlite:///job_screening.db"
  const DefaultChromaPersistDir: string := "./chroma_db"
  const DefaultSmtpServer: string := "smtp.gmail.com"
  const DefaultEmailFrom: string := "noreply@example.com"
  const DefaultEmailPassword: string := ""

  const MissingKeyMessage: string := "OPENAI_API_KEY not set in environment variables"

  /** The port read when `SMTP_PORT` is not set, before conversion. */
  const DefaultSmtpPort: string := "587"

  /** The environment-derived class attributes of `Config`. */
  datatype Settings = Settings(
    openAiApiKey: Option<string>,
    databaseUrl: string,
    chromaPersistDir: string,
    smtpServer: string,
    smtpPort: int,
    emailFrom: string,
    emailPassword: string)

  /** What the class body needs from its host: `os.getenv`, Python's
      `int()` on a string (an error carries its message, e.g.
      "invalid literal for int() with base 10: 'x'"), and the outcome of
      creating the upload directory. */
  datatype Host = Host(
    getenv: string -> Option<string>,
    toInt: string -> Result<int>,
    makeUploadDir: Outcome)

  /** The text the port is converted from. */
  function PortText(getenv: string -> Option<string>): string {
    getenv("SMTP_PORT").GetOr(DefaultSmtpPort)
  }

  /** Runs the class body: the settings read through `getenv`, with the
      defaults of the source for the variables that have one.  Creating the
      upload directory comes first and converting the port second; either
      may raise, and the first exception ends the body. */
  function Load(h: Host): (r: Result<Settings>)
    ensures h.makeUploadDir.Fail? ==> r == Err(h.makeUploadDir.msg)
    ensures h.makeUploadDir.Pass? ==> (r.Ok? <==> h.toInt(PortText(h.getenv)).Ok?)
    ensures h.makeUploadDir.Pass? && r.Err? ==> r.msg == h.toInt(PortText(h.getenv)).msg
    ensures r.Ok? ==> r.value.openAiApiKey == h.getenv("OPENAI_API_KEY")
    ensures r.Ok? && h.getenv("SMTP_PORT").None? ==> r.value.smtpPort == h.toInt(DefaultSmtpPort).value
    ensures r.Ok? && h.getenv("SMTP_PORT").Some? ==> r.value.smtpPort == h.toInt(h.getenv("SMTP_PORT").value).value
    ensures r.Ok? && h.getenv("EMAIL_PASSWORD").None? ==> r.value.emailPassword == DefaultEmailPassword
    ensures r.Ok? && h.getenv("DATABASE_URL").None? ==> r.value.databaseUrl == DefaultDatabaseUrl
  {
    if h.makeUploadDir.Fail? then Err(h.makeUploadDir.msg)
    else
      var port :- h.toInt(PortText(h.getenv));
      Ok(Settings(
        h.getenv("OPENAI_API_KEY"),
        h.getenv("DATABASE_URL").GetOr(DefaultDatabaseUrl),
        h.getenv("CHROMA_PERSIST_DIR").GetOr(DefaultChromaPersistDir),
        h.getenv("SMTP_SERVER").GetOr(DefaultSmtpServer),
        port,
        h.getenv("EMAIL_FROM").GetOr(DefaultEmailFrom),
        h.getenv("EMAIL_PASSWORD").GetOr(DefaultEmailPassword)))
  }

  /** `Config.validate()`: raises unless an API key is set and non-empty. */
  function Validate(s: Settings): (r: Result<bool>)
    ensures r.Ok? <==> s.openAiApiKey.Some? && s.openAiApiKey.value != ""
    ensures r.Ok? ==> r.value
    ensures r.Err? ==> r.msg == MissingKeyMessage
  {
    if s.openAiApiKey.None? || s.openAiApiKey.value == "" then Err(MissingKeyMessage)
    else Ok(true)
  }

  /** Importing the module runs the class body and then validates, so an
      import fails when the directory cannot be made, when the port is not
      an integer literal, or when the key is missing — in that order. */
  function Import(h: Host): (r: Result<Settings>)
    ensures r.Ok? <==>
      && h.makeUploadDir.Pass?
      && h.toInt(PortText(h.getenv)).Ok?
      && h.getenv("OPENAI_API_KEY").Some? && h.getenv("OPENAI_API_KEY").value != ""
    ensures h.makeUploadDir.Fail? ==> r == Err(h.makeUploadDir.msg)
    ensures h.makeUploadDir.Pass? && h.toInt(PortText(h.getenv)).Err? ==> r == Err(h.toInt(PortText(h.getenv)).msg)
    ensures h.makeUploadDir.Pass? && h.toInt(PortText(h.getenv)).Ok? && r.Err? ==> r.msg == MissingKeyMessage
  {
    var s :- Load(h);
    var _ :- Validate(s);
    Ok(s)
  }

  /** What a successful import yields is exactly what the class body
      loaded, and it passes `validate()` again. */
  lemma ImportedSettingsValidate(h: Host)
    requires Import(h).Ok?
    ensures Load(h).Ok? && Import(h).value == Load(h).value
    ensures Validate(Import(h).value) == Ok(true)
  {
  }

  /** The class body runs before `validate()`: with an unusable port, the
      import reports the port's error even when the key is missing too. */
  lemma PortErrorComesBeforeKeyCheck(h: Host)
    requires h.makeUploadDir.Pass?
    requires h.toInt(PortText(h.getenv)).Err?
    requires h.getenv("OPENAI_API_KEY").None?
    ensures Import(h) == Err(h.toInt(PortText(h.getenv)).msg)
  {
  }

  /** With no `EMAIL_PASSWORD` in the environment the mailer runs in demo
      mode, and the overlap is below the chunk size. */
  lemma DefaultsSelectDemoMode(h: Host)
    requires h.getenv("EMAIL_PASSWORD").None? && Load(h).Ok?
    ensures Load(h).value.emailPassword == ""
    ensures ChunkOverlap < ChunkSize
    ensures TopNCandidates == 10
  {
  }
}
