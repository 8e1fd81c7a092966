/** The guard clauses that accept or reject a loaded process configuration. */
module ConfigValidation {
  import opened Wrappers
  import Errors

  datatype AppConfig = AppConfig(name: string, env: string)
  datatype GrpcConfig = GrpcConfig(port: int, reflection: bool)
  datatype PostgresConfig = PostgresConfig(
    host: string, port: int, user: string, password: string, dbName: string, sslMode: string,
    maxOpenConns: int, maxIdleConns: int, connMaxLifetime: int)
  datatype Config = Config(app: AppConfig, grpc: GrpcConfig, postgres: PostgresConfig)

  const OpenConnsMessage: string := "MAX_OPEN_CONNS must be > 0"
  const IdleConnsMessage: string := "MAX_IDLE_CONNS cannot be negative"
  const SslModeMessage: string := "production requires PG_SSLMODE=require"

  /** What a configuration must satisfy to be accepted. */
  predicate Acceptable(c: Config)
  {
    && c.postgres.maxOpenConns > 0
    && c.postgres.maxIdleConns >= 0
    && (c.app.env == "production" ==> c.postgres.sslMode == "require")
  }

  /** `validate`: nil exactly when acceptable; otherwise the error of the first failing check. */
  function Validate(c: Config): (r: Option<Errors.Error>)
    ensures r.None? <==> Acceptable(c)
    ensures c.postgres.maxOpenConns <= 0 ==> r == Some(Errors.Foreign(OpenConnsMessage))
    ensures c.postgres.maxOpenConns > 0 && c.postgres.maxIdleConns < 0 ==>
              r == Some(Errors.Foreign(IdleConnsMessage))
    ensures c.postgres.maxOpenConns > 0 && c.postgres.maxIdleConns >= 0 && !Acceptable(c) ==>
              r == Some(Errors.Foreign(SslModeMessage))
  {
    if c.postgres.maxOpenConns <= 0 then Some(Errors.Foreign(OpenConnsMessage))
    else if c.postgres.maxIdleConns < 0 then Some(Errors.Foreign(IdleConnsMessage))
    else if c.app.env == "production" && c.postgres.sslMode != "require" then Some(Errors.Foreign(SslModeMessage))
    else None
  }

  /** Outside production the SSL mode plays no part in the verdict. */
  lemma SslModeFreeOutsideProduction(c: Config, mode: string)
    requires c.app.env != "production"
    ensures Validate(c) == Validate(c.(postgres := c.postgres.(sslMode := mode)))
  {
  }

  /** Zero idle connections are accepted; the only bounds are the three checks. */
  lemma ZeroIdleAccepted(c: Config)
    requires c.postgres.maxOpenConns > 0 && c.postgres.maxIdleConns == 0 && c.app.env != "production"
    ensures Validate(c).None?
  {
  }
}
