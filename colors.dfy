/** The colour resolver: a fixed precedence table from a token to one of the
    theme's named tones. Which colour each tone is depends on the theme and is
    not modelled. */
module Colors {

  /** The palette entries the resolver uses, named after the theme's extended
      palette (`secondary.base.text`, `primary.strong`, ...). */
  datatype Tone =
    | SecondaryBaseText
    | PrimaryStrong
    | BackgroundWeak
    | SecondaryBase
    | BackgroundStrong
    | SuccessWeak
    | PrimaryWeak

  /** The bracket tokens that share the muted background tone. */
  predicate IsBracket(token: string) {
    token == "{" || token == "}" || token == "[" || token == "]"
  }

  /** `color_for_token`. Whether a token reads as a floating-point number
      (`token.trim().parse::<f64>().is_ok()`) is the caller's `isNumeric`.
      Each tone is chosen for exactly one class of token, so the tone tells
      the class back. */
  function ColorForToken(token: string, isKey: bool, inString: bool, isNumeric: string -> bool): (tone: Tone)
    ensures tone == SecondaryBaseText <==> inString && isKey
    ensures tone == PrimaryStrong <==> inString && !isKey
    ensures tone == BackgroundWeak <==> !inString && IsBracket(token)
    ensures tone == SecondaryBase <==> !inString && token == ":"
    ensures tone == BackgroundStrong <==> !inString && token == ","
    ensures tone == SuccessWeak <==>
      !inString && !IsBracket(token) && token != ":" && token != "," && isNumeric(token)
    ensures tone == PrimaryWeak <==>
      !inString && !IsBracket(token) && token != ":" && token != "," && !isNumeric(token)
  {
    if inString then
      if isKey then SecondaryBaseText else PrimaryStrong
    else if token == "{" || token == "}" then BackgroundWeak
    else if token == "[" || token == "]" then BackgroundWeak
    else if token == ":" then SecondaryBase
    else if token == "," then BackgroundStrong
    else if isNumeric(token) then SuccessWeak
    else PrimaryWeak
  }
}
