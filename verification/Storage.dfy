/** The local store: one bucket per kind, keyed by MakeKey. */
module Storage {
  import opened Model
  import opened Keys

  datatype Store = Store(apps: map<string, Application>, configs: map<string, Configuration>,
                         secrets: map<string, Secret>)

  function AppKey(app: Application): string {
    MakeKey(APPLICATION, app.name, app.version)
  }

  function ConfigKey(cfg: Configuration): string {
    MakeKey(CONFIGURATION, cfg.name, cfg.version)
  }

  function SecretKey(sec: Secret): string {
    MakeKey(SECRET, sec.name, sec.version)
  }

  function InfoKey(info: AppInfo): string {
    MakeKey(APPLICATION, info.name, info.version)
  }

  function RefKey(kind: string, ref: ObjectRef): string {
    MakeKey(kind, ref.name, ref.version)
  }

  /** Every record sits under its own, non-empty key. */
  ghost predicate WellKeyed(sto: Store) {
    && (forall k :: k in sto.apps ==> k != "" && k == AppKey(sto.apps[k]))
    && (forall k :: k in sto.configs ==> k != "" && k == ConfigKey(sto.configs[k]))
    && (forall k :: k in sto.secrets ==> k != "" && k == SecretKey(sto.secrets[k]))
  }
}
