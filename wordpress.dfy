/**
 * The WordPress functions the plugin calls whose code is not part of this
 * model. Each is an opaque function of its arguments; the site settings it
 * reads are plain values.
 */
module WordPress {
  import opened Php

  /** The string `apply_filters('custom_urm_user_agent_string_replace', ...)` starts from. */
  const DefaultUserAgentReplacement := "wordpress.org"

  datatype Host = Host(
    homeUrl: string,                              // get_home_url()
    filterUserAgentReplacement: string -> string, // the custom_urm_user_agent_string_replace filter
    escUrlRaw: string -> string,                  // esc_url_raw()
    sanitizeTextField: string -> string,          // sanitize_text_field()
    jsonDecode: Json -> Json,                     // json_decode($v, true); Null on failure
    jsonEncode: Json -> string,                   // json_encode($v)
    jsonEncodePretty: Json -> string)             // json_encode($v, JSON_PRETTY_PRINT)
  {
    /** The string every occurrence of the home URL in a user-agent becomes. */
    function UserAgentReplacement(): string {
      filterUserAgentReplacement(DefaultUserAgentReplacement)
    }
  }
}
