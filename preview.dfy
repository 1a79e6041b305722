/** The description previews of the recipe card and the admin list, and the card's view dispatch. */
module Preview {

  const CardLimit := 100
  const PanelLimit := 80
  const Ellipsis := "..."

  /** `s.substring(0, n)`: the end index is clamped to the length. */
  function Substring(s: string, n: nat): (r: string)
    ensures r <= s && |r| == if n < |s| then n else |s|
  {
    if n < |s| then s[..n] else s
  }

  /** The recipe card: a description over 100 characters is cut to 100 and gets an ellipsis. */
  function CardPreview(d: string): (p: string)
    ensures |d| <= CardLimit ==> p == d
    ensures |d| > CardLimit ==> p == d[..CardLimit] + Ellipsis
    ensures |p| <= CardLimit + |Ellipsis|
  {
    if |d| > CardLimit then d[..CardLimit] + Ellipsis else d
  }

  /** The admin list: the first 80 characters, then an ellipsis when anything was cut. */
  function PanelPreview(d: string): (p: string)
    ensures |p| <= PanelLimit + |Ellipsis|
    ensures |d| <= PanelLimit ==> p == d
    ensures |d| > PanelLimit ==> d[..PanelLimit] <= p && p[PanelLimit..] == Ellipsis
  {
    var shown := Substring(d, PanelLimit);
    var p := shown + (if |d| > PanelLimit then Ellipsis else "");
    assert |d| > PanelLimit ==> p[PanelLimit..] == Ellipsis;
    p
  }

  /** Both previews follow one rule: show short text whole, else its prefix and an ellipsis. */
  function Shorten(d: string, limit: nat): string {
    if |d| > limit then d[..limit] + Ellipsis else d
  }

  lemma PreviewsShareOneRule(d: string)
    ensures CardPreview(d) == Shorten(d, CardLimit)
    ensures PanelPreview(d) == Shorten(d, PanelLimit)
  {
  }

  /** A description of at most 80 characters looks the same in both places. */
  lemma ShortDescriptionsAgree(d: string)
    requires |d| <= PanelLimit
    ensures CardPreview(d) == PanelPreview(d) == d
  {
  }

  /** The two places on a recipe card that open the recipe: the card itself and its button. */
  datatype CardClick = CardBody | ViewButton
}
