/** The `process.env` variables the core reads. `None` is an unset variable. */
module Environment {
  import opened Wrappers
  import opened Strings

  datatype Env = Env(
    supabaseUrl: Option<string>,             // NEXT_PUBLIC_SUPABASE_URL
    supabaseAnonKey: Option<string>,         // NEXT_PUBLIC_SUPABASE_ANON_KEY
    supabaseServiceRoleKey: Option<string>,  // SUPABASE_SERVICE_ROLE_KEY
    botToken: Option<string>,                // BOT_TOKEN
    chatId: Option<string>)                  // CHAT_ID

  const HTTPS_SCHEME := "https://"

  /** A key must be strictly longer than this many characters. */
  const MIN_KEY_LENGTH := 20

  /**
   * The check both Supabase configuration guards apply to a URL and a key:
   * both set (truthy), the URL an https URL, the key longer than 20 characters.
   */
  predicate SupabaseCredentialsValid(url: Option<string>, key: Option<string>) {
    && TruthyOpt(url)
    && TruthyOpt(key)
    && StartsWith(url.value, HTTPS_SCHEME)
    && |key.value| > MIN_KEY_LENGTH
  }

  /** The truthiness tests are implied by the other two: the guard is exactly "https URL and key of 21 or more characters". */
  lemma SupabaseCredentialsValidIff(url: Option<string>, key: Option<string>)
    ensures SupabaseCredentialsValid(url, key) <==>
      url.Some? && key.Some? && StartsWith(url.value, HTTPS_SCHEME) && |key.value| >= 21
  {
  }

  /** A key of exactly 20 characters is refused whatever the URL. */
  lemma TwentyCharacterKeyRefused(url: Option<string>, key: string)
    requires |key| == 20
    ensures !SupabaseCredentialsValid(url, Some(key))
  {
  }
}
