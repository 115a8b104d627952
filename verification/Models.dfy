/** The stored records: api/models/plugin.go, less the fields that no modelled operation decides on. Times are
    integers; an absent time is None. */
module Models {
  import opened Text

  datatype PluginVersion = PluginVersion(
    id: int,
    pluginId: int,
    version: string,
    releaseDate: Option<int>,
    changelog: string,
    downloadUrl: string,
    checksums: map<string, string>,
    semrelCore: string,
    prerelease: bool,
    views: int,
    downloads: int,
    createdAt: int,
    deletedAt: Option<int>,
    yankedAt: Option<int>,
    yankedBy: string,
    yankedReason: string)

  datatype Plugin = Plugin(
    id: int,
    namespace: string,
    name: string,
    aliases: seq<string>,
    description: string,
    author: string,
    category: string,
    repository: string,
    license: string,
    status: string,
    tags: seq<string>,
    versions: seq<PluginVersion>,
    latestVersion: string,
    latestSemrelCore: string,
    views: int,
    downloads: int,
    createdAt: int,
    deletedAt: Option<int>)
  {
    predicate Live() {
      deletedAt == None
    }

    /** "@namespace/name", or the bare name without a namespace. */
    function Ref(): string {
      if namespace != "" then namespace + "/" + name else name
    }
  }

  const ACTIVE := "active"
  const PENDING := "pending"

  datatype Error = NotFound | Duplicate | Invalid | Storage

  datatype Result<+T> = Ok(value: T) | Err(error: Error)
}
