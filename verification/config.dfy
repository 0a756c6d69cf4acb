/** The run configuration and the merge `cli` performs: values from the
    configuration file (or empty defaults when it cannot be loaded),
    overridden field by field by the command line. */
module Config {
  import opened Results

  /** Connection settings, target database and table, and whether to
      skip the first item of the reader's record stream. */
  datatype Args = Args(
    host: string,
    port: string,
    user: string,
    pwd: string,
    db: string,
    tb: string,
    skipHeaders: bool)

  /** What `Args::new` yields: every string empty, no header skipping. */
  const EmptyArgs := Args("", "", "", "", "", "", false)

  /** What the command line supplies: an optional value per string option
      and how many times the `skip-headers` flag occurred. */
  datatype Overrides = Overrides(
    host: Option<string>,
    port: Option<string>,
    user: Option<string>,
    password: Option<string>,
    db: Option<string>,
    table: Option<string>,
    skipHeadersOccurrences: nat)

  /** No option given on the command line. */
  const NoOverrides := Overrides(None, None, None, None, None, None, 0)

  /** The configuration the merge starts from. */
  function Base(loaded: Result<Args>): (base: Args)
    ensures loaded.Err? ==> base == EmptyArgs
    ensures loaded.Ok? ==> base == loaded.value
  {
    match loaded
    case Ok(a) => a
    case Err(_) => EmptyArgs
  }

  /** The merge: each option given on the command line replaces the
      loaded value, one at a time in the order the source applies them;
      the flag switches header skipping on when it occurred exactly once. */
  function Cli(loaded: Result<Args>, cli: Overrides): (args: Args)
    ensures args.host == cli.host.GetOr(Base(loaded).host)
    ensures args.port == cli.port.GetOr(Base(loaded).port)
    ensures args.user == cli.user.GetOr(Base(loaded).user)
    ensures args.pwd == cli.password.GetOr(Base(loaded).pwd)
    ensures args.db == cli.db.GetOr(Base(loaded).db)
    ensures args.tb == cli.table.GetOr(Base(loaded).tb)
    ensures args.skipHeaders <==> Base(loaded).skipHeaders || cli.skipHeadersOccurrences == 1
  {
    var args := Base(loaded);
    var args := args.(host := cli.host.GetOr(args.host));
    var args := args.(port := cli.port.GetOr(args.port));
    var args := args.(user := cli.user.GetOr(args.user));
    var args := args.(pwd := cli.password.GetOr(args.pwd));
    var args := args.(db := cli.db.GetOr(args.db));
    var args := args.(tb := cli.table.GetOr(args.tb));
    if cli.skipHeadersOccurrences == 1 then args.(skipHeaders := true) else args
  }

  /** Without command-line options the loaded configuration is used as it
      is, and a failed load yields the empty defaults. */
  lemma CliWithoutOverrides(loaded: Result<Args>)
    ensures Cli(loaded, NoOverrides) == Base(loaded)
    ensures loaded.Err? ==> Cli(loaded, NoOverrides) == EmptyArgs
  {
  }

  /** The command line wins: when every string option is given, the file's
      strings do not matter, and the flag given once forces header skipping. */
  lemma CliOverridesWin(loaded: Result<Args>, other: Result<Args>, cli: Overrides)
    requires cli.host.Some? && cli.port.Some? && cli.user.Some?
    requires cli.password.Some? && cli.db.Some? && cli.table.Some?
    requires cli.skipHeadersOccurrences == 1
    ensures Cli(loaded, cli) == Cli(other, cli)
  {
  }

  /** The merge never turns header skipping off, and a flag repeated more
      than once does not turn it on. */
  lemma CliSkipHeaders(loaded: Result<Args>, cli: Overrides)
    ensures Base(loaded).skipHeaders ==> Cli(loaded, cli).skipHeaders
    ensures cli.skipHeadersOccurrences != 1 ==> Cli(loaded, cli).skipHeaders == Base(loaded).skipHeaders
  {
  }

  /** Merging the same command line into a merged configuration changes
      nothing. */
  lemma CliIdempotent(loaded: Result<Args>, cli: Overrides)
    ensures Cli(Ok(Cli(loaded, cli)), cli) == Cli(loaded, cli)
  {
  }
}
