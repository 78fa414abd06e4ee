/** The translation service the handlers call from their worker thread
    (`google_translate_free` in src/lib.rs). */
module Translator {
  import opened Wrappers

  /** A translator: the text, the source language code and the target
      language code to the translated text, or to a failure. The handlers
      take any such function, so nothing below depends on what the remote
      service answers. */
  type Translate = (string, string, string) -> Result<string, ()>

  /** `google_translate_free` as the source has it today: the request URL
      is formatted and then unused, and the text comes back unchanged. */
  function GoogleTranslateFree(text: string, source: string, target: string): (r: Result<string, ()>)
    ensures r.Ok? && r.value == text
  {
    Ok(text)
  }
}
