/** Text helpers shared by the admin columns that shorten long text. */
module Text {

  function Min(a: nat, b: nat): nat {
    if a < b then a else b
  }
}
