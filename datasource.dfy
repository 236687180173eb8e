/**
 * The datasource selector (src/lib/datasource.ts): on first load it builds
 * exactly one adapter, chosen by the configured discriminator, and keeps it
 * in the process-wide slot `global.datasource` for every later load.
 * The S3, Local and Supabase adapters appear only as the configuration they
 * are built from.
 */
module DatasourceSelector {
  import opened Wrappers
  import DdrvAdapter

  datatype S3Config = S3Config(bucket: string)
  datatype LocalConfig = LocalConfig(directory: string)
  datatype SupabaseConfig = SupabaseConfig(bucket: string)

  /** `config.datasource`: the discriminator and one sub-configuration per backend. */
  datatype DatasourceConfig = DatasourceConfig(
    kind: string,
    s3: S3Config,
    local: LocalConfig,
    supabase: SupabaseConfig,
    ddrv: DdrvAdapter.Config)

  /** An adapter instance, identified by its kind and what it was constructed with. */
  datatype Datasource =
    | S3(s3: S3Config)
    | Local(directory: string)
    | Supabase(supabase: SupabaseConfig)
    | Ddrv(ddrv: DdrvAdapter.Config)

  /** The message of the error thrown for an unknown discriminator. */
  const InvalidType := "Invalid datasource type"

  /** The discriminator value that selects each kind of adapter. */
  function KindOf(d: Datasource): string
  {
    match d
    case S3(_) => "s3"
    case Local(_) => "local"
    case Supabase(_) => "supabase"
    case Ddrv(_) => "ddrv"
  }

  /** The adapter was constructed from its own part of the configuration. */
  predicate BuiltFrom(d: Datasource, c: DatasourceConfig)
  {
    match d
    case S3(s) => s == c.s3
    case Local(directory) => directory == c.local.directory
    case Supabase(s) => s == c.supabase
    case Ddrv(s) => s == c.ddrv
  }

  /**
   * The `switch` on `config.datasource.type`: one constructor per known
   * discriminator, the thrown error otherwise.
   */
  function Construct(c: DatasourceConfig): (r: Result<Datasource, string>)
    ensures r.Success? <==> c.kind in {"s3", "local", "supabase", "ddrv"}
    ensures r.Success? ==> KindOf(r.value) == c.kind && BuiltFrom(r.value, c)
    ensures r.Failure? ==> r.error == InvalidType
  {
    if c.kind == "s3" then Success(S3(c.s3))
    else if c.kind == "local" then Success(Local(c.local.directory))
    else if c.kind == "supabase" then Success(Supabase(c.supabase))
    else if c.kind == "ddrv" then Success(Ddrv(c.ddrv))
    else Failure(InvalidType)
  }

  /**
   * The kind and the sub-configuration determine the adapter: any instance of
   * the configured kind built from its own part of the configuration is the
   * one Construct returns.
   */
  lemma ConstructIsUnique(c: DatasourceConfig, d: Datasource)
    requires KindOf(d) == c.kind && BuiltFrom(d, c)
    ensures Construct(c) == Success(d)
  {
    match d
    case S3(_) =>
    case Local(_) =>
    case Supabase(_) =>
    case Ddrv(_) =>
  }

  /** The sub-configurations of the kinds not selected play no part. */
  lemma ConstructReadsOwnPartOnly(c: DatasourceConfig, c': DatasourceConfig)
    requires c.kind == c'.kind
    requires Construct(c).Success?
    requires BuiltFrom(Construct(c).value, c')
    ensures Construct(c') == Construct(c)
  {
    ConstructIsUnique(c', Construct(c).value);
  }

  /** The process-wide state `global.datasource`. */
  class Global {
    var datasource: Option<Datasource>

    /** A fresh process: the slot is empty. */
    constructor ()
      ensures datasource == None
    {
      datasource := None;
    }

    /**
     * Loading the selector module: the slot is filled only when empty, then
     * its content is the default export. Failure is the thrown error, after
     * which nothing is exported and the slot stays empty.
     */
    method Load(c: DatasourceConfig) returns (exported: Result<Datasource, string>)
      modifies this
      ensures old(datasource).Some? ==> datasource == old(datasource) && exported == Success(old(datasource).value)
      ensures old(datasource).None? ==> exported == Construct(c)
      ensures exported.Success? ==> datasource == Some(exported.value)
      ensures exported.Failure? ==> datasource == None && exported.error == InvalidType
    {
      if datasource.None? {
        if c.kind == "s3" {
          datasource := Some(S3(c.s3));
        } else if c.kind == "local" {
          datasource := Some(Local(c.local.directory));
        } else if c.kind == "supabase" {
          datasource := Some(Supabase(c.supabase));
        } else if c.kind == "ddrv" {
          datasource := Some(Ddrv(c.ddrv));
        } else {
          return Failure(InvalidType);
        }
      }
      exported := Success(datasource.value);
    }
  }

  /**
   * Loading twice in one process: once the first load succeeded, a second
   * load, whatever its configuration, constructs nothing and exports the same instance.
   */
  method LoadTwice(g: Global, first: DatasourceConfig, second: DatasourceConfig)
    returns (a: Result<Datasource, string>, b: Result<Datasource, string>)
    modifies g
    ensures old(g.datasource).None? ==> a == Construct(first)
    ensures a.Success? ==> b == a && g.datasource == Some(a.value)
    ensures a.Failure? && old(g.datasource).None? ==> b == Construct(second)
  {
    a := g.Load(first);
    b := g.Load(second);
  }
}
