/** How the page's script writes boolean state into ARIA attributes. */
module Attributes {
  /** The attribute text for a boolean: "true" or "false", as `setAttribute` renders a
      boolean and as `applyTheme` spells out. */
  function BoolText(b: bool): (s: string)
    ensures s == "true" <==> b
    ensures s == "true" || s == "false"
  {
    if b then "true" else "false"
  }
}
