/** The server-side Supabase client guard and its lazily created module-level instance. */
module SupabaseServer {
  import opened Wrappers
  import opened Environment

  const ADMIN_NOT_CONFIGURED := "Supabase admin is not configured"

  /** `isSupabaseAdminConfigured`: the URL and the service-role key pass the credential check. */
  predicate IsSupabaseAdminConfigured(env: Env) {
    SupabaseCredentialsValid(env.supabaseUrl, env.supabaseServiceRoleKey)
  }

  /**
   * What `createClient` is called with for the admin client. The client object
   * itself belongs to the Supabase library and is not part of this model.
   */
  datatype AdminClient = AdminClient(url: string, serviceRoleKey: string, autoRefreshToken: bool, persistSession: bool)

  /** The module-level `supabaseAdminInstance` variable, initially `null`. */
  class AdminInstance {
    var instance: Option<AdminClient>
    /** How many times `createClient` has been called. */
    ghost var creations: nat

    ghost predicate Valid()
      reads this
    {
      creations == if instance.Some? then 1 else 0
    }

    constructor ()
      ensures Valid() && instance == None
    {
      instance := None;
      creations := 0;
    }

    /**
     * `getSupabaseAdmin`: fails while the configuration is invalid (even when an
     * instance is cached); otherwise creates the instance on the first call and
     * returns the same instance on every later call.
     */
    method GetSupabaseAdmin(env: Env) returns (r: Result<AdminClient>)
      requires Valid()
      modifies this
      ensures Valid()
      ensures !IsSupabaseAdminConfigured(env) ==>
        r == Failure(ADMIN_NOT_CONFIGURED) && instance == old(instance) && creations == old(creations)
      ensures IsSupabaseAdminConfigured(env) ==> instance.Some? && r == Success(instance.value)
      ensures IsSupabaseAdminConfigured(env) && old(instance).Some? ==>
        instance == old(instance) && creations == old(creations)
      ensures IsSupabaseAdminConfigured(env) && old(instance).None? ==>
        instance == Some(AdminClient(env.supabaseUrl.value, env.supabaseServiceRoleKey.value, false, false))
        && creations == old(creations) + 1
    {
      if !IsSupabaseAdminConfigured(env) {
        return Failure(ADMIN_NOT_CONFIGURED);
      }
      if instance.None? {
        instance := Some(AdminClient(env.supabaseUrl.value, env.supabaseServiceRoleKey.value, false, false));
        creations := creations + 1;
      }
      r := Success(instance.value);
    }
  }
}
