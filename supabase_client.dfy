/** The browser-side Supabase client guard and its lazily created module-level instance. */
module SupabaseClient {
  import opened Wrappers
  import opened Environment

  const NOT_CONFIGURED := "Supabase is not configured"

  /** `isSupabaseConfigured`: the URL and the anonymous key pass the credential check. */
  predicate IsSupabaseConfigured(env: Env) {
    SupabaseCredentialsValid(env.supabaseUrl, env.supabaseAnonKey)
  }

  /** What `createClient` is called with for the browser client (no extra options). */
  datatype BrowserClient = BrowserClient(url: string, anonKey: string)

  /** The module-level `supabaseInstance` variable, initially `null`. */
  class ClientInstance {
    var instance: Option<BrowserClient>
    /** How many times `createClient` has been called. */
    ghost var creations: nat

    ghost predicate Valid()
      reads this
    {
      creations == if instance.Some? then 1 else 0
    }

    constructor ()
      ensures Valid() && instance == None
    {
      instance := None;
      creations := 0;
    }

    /**
     * `getSupabaseClient`: fails while the configuration is invalid, leaving the
     * cached instance alone; otherwise creates the instance once and returns it.
     */
    method GetSupabaseClient(env: Env) returns (r: Result<BrowserClient>)
      requires Valid()
      modifies this
      ensures Valid()
      ensures !IsSupabaseConfigured(env) ==>
        r == Failure(NOT_CONFIGURED) && instance == old(instance) && creations == old(creations)
      ensures IsSupabaseConfigured(env) ==> instance.Some? && r == Success(instance.value)
      ensures IsSupabaseConfigured(env) && old(instance).Some? ==>
        instance == old(instance) && creations == old(creations)
      ensures IsSupabaseConfigured(env) && old(instance).None? ==>
        instance == Some(BrowserClient(env.supabaseUrl.value, env.supabaseAnonKey.value))
        && creations == old(creations) + 1
    {
      if !IsSupabaseConfigured(env) {
        return Failure(NOT_CONFIGURED);
      }
      if instance.None? {
        instance := Some(BrowserClient(env.supabaseUrl.value, env.supabaseAnonKey.value));
        creations := creations + 1;
      }
      r := Success(instance.value);
    }
  }
}
