/**
 * The backend client chosen once, when lib/supabaseClient.ts is loaded: the
 * configuration check, the substitute ("mock") client, and the if/else/try
 * that assigns the exported `supabase` binding. The hosted service itself is
 * foreign: its answers are supplied as a `Backend` value, and `new URL` and
 * `createClient` are supplied as oracles saying whether they would throw.
 */
module SupabaseClient {
  import opened Wrappers

  /** The two environment values: the service URL and the anonymous access key. */
  datatype Env = Env(url: Option<string>, anonKey: Option<string>)

  /** What a storage `list` call settles to: `{ data, error }`, or a rejected promise. */
  datatype ListResponse =
    | Resolved(data: seq<string>, error: Option<string>)
    | Rejected

  /**
   * The hosted service as seen through a real client: what `list(path)` on a
   * bucket resolves to, and what `getPublicUrl(name)` on a bucket returns.
   */
  datatype Backend = Backend(
    list: (string, string) -> ListResponse,
    publicUrl: (string, string) -> string)

  /** The exported client: the substitute, or one built by `createClient(url, key)`. */
  datatype Client = Mock | Real(url: string, anonKey: string)

  const NotConfiguredMessage := "Supabase not configured"

  /** JavaScript truthiness of an environment value: defined and not the empty string. */
  predicate Truthy(v: Option<string>) {
    v.Some? && v.value != ""
  }

  /** `isSupabaseConfigured()`: both values are present and non-empty; the URL's syntax is not looked at. */
  function IsConfigured(env: Env): (r: bool)
    ensures r <==> env.url.Some? && env.anonKey.Some? && env.url.value != "" && env.anonKey.value != ""
  {
    Truthy(env.url) && Truthy(env.anonKey)
  }

  /** The substitute's `storage.from(bucket).list(path)`: never rejects, no data, a non-empty error. */
  function MockList(bucket: string, path: string): (r: ListResponse)
    ensures r.Resolved? && r.data == []
    ensures r.error.Some? && r.error.value == NotConfiguredMessage && r.error.value != ""
  {
    Resolved([], Some(NotConfiguredMessage))
  }

  /** The substitute's `storage.from(bucket).getPublicUrl(name)`: the empty URL for every name. */
  function MockPublicUrl(bucket: string, name: string): (u: string)
    ensures u == ""
  {
    ""
  }

  /** A storage listing of `path` in `bucket` through the given client. */
  function List(client: Client, backend: Backend, bucket: string, path: string): (r: ListResponse)
    ensures client.Mock? ==> r == MockList(bucket, path)
    ensures client.Real? ==> r == backend.list(bucket, path)
  {
    match client
    case Mock => MockList(bucket, path)
    case Real(_, _) => backend.list(bucket, path)
  }

  /** The public URL of `name` in `bucket`, as the given client derives it. */
  function PublicUrl(client: Client, backend: Backend, bucket: string, name: string): (u: string)
    ensures client.Mock? ==> u == ""
    ensures client.Real? ==> u == backend.publicUrl(bucket, name)
  {
    match client
    case Mock => MockPublicUrl(bucket, name)
    case Real(_, _) => backend.publicUrl(bucket, name)
  }

  /**
   * The client the module exports, given whether `new URL(url)` parses and
   * whether `createClient(url, key)` returns without throwing.
   */
  function ClientFor(env: Env, urlParses: string -> bool, createSucceeds: (string, string) -> bool): (c: Client)
    ensures !IsConfigured(env) ==> c == Mock
    ensures IsConfigured(env) && !urlParses(env.url.value) ==> c == Mock
    ensures IsConfigured(env) && urlParses(env.url.value) && !createSucceeds(env.url.value, env.anonKey.value) ==> c == Mock
    ensures IsConfigured(env) && urlParses(env.url.value) && createSucceeds(env.url.value, env.anonKey.value) ==>
              c == Real(env.url.value, env.anonKey.value)
  {
    if !IsConfigured(env) then Mock
    else if urlParses(env.url.value) && createSucceeds(env.url.value, env.anonKey.value) then
      Real(env.url.value, env.anonKey.value)
    else Mock
  }

  /**
   * The load-time statements that assign `let supabase`: the if/else, and in
   * the else branch a try whose catch falls back to the substitute. The ghost
   * `assignments` counts the writes to the binding.
   */
  method LoadClient(env: Env, urlParses: string -> bool, createSucceeds: (string, string) -> bool)
    returns (supabase: Client, ghost assignments: nat)
    ensures supabase == ClientFor(env, urlParses, createSucceeds)
    ensures supabase.Real? ==> IsConfigured(env) && supabase == Real(env.url.value, env.anonKey.value)
    ensures assignments == 1
  {
    assignments := 0;
    if !Truthy(env.url) || !Truthy(env.anonKey) {
      supabase := Mock;
      assignments := assignments + 1;
    } else {
      var url, key := env.url.value, env.anonKey.value;
      // URL parsing and construction either succeed in turn or throw to the catch
      var threw := !urlParses(url);
      if !threw {
        threw := !createSucceeds(url, key);
        if !threw {
          supabase := Real(url, key);
          assignments := assignments + 1;
        }
      }
      if threw {
        supabase := Mock;
        assignments := assignments + 1;
      }
    }
  }

  /**
   * The configuration check ignores the URL's syntax: with both values set
   * and a URL that does not parse, the module reports itself configured while
   * exporting the substitute.
   */
  lemma ConfiguredYetMock(env: Env, urlParses: string -> bool, createSucceeds: (string, string) -> bool)
    requires Truthy(env.url) && Truthy(env.anonKey) && !urlParses(env.url.value)
    ensures IsConfigured(env) && ClientFor(env, urlParses, createSucceeds) == Mock
  {
  }
}
