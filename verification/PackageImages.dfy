/** The images of a package as the import and forwarder validators see them. */
module PackageImages {
  import opened Options

  /** An export is addressed by name or by ordinal. */
  datatype Symbol = Name(name: string) | Ordinal(ordinal: nat)

  datatype Forward = Forward(library: string, symbol: Symbol)

  /** One imported or delay-imported library with the symbols taken from it. */
  datatype Import = Import(library: string, targets: seq<Symbol>)

  datatype Image = Image(exports: set<Symbol>, forwarded: map<Symbol, Forward>, imports: seq<Import>)

  /**
   The bundled images under their keys, the libraries declared external, the system libraries of the import policy, and
   the naming rule that turns an imported name into a key or refuses it.
   */
  datatype World = World(
    images: map<string, Image>,
    external: set<string>,
    system: set<string>,
    key: string -> Option<string>)

  /** The library is supplied from outside the package. */
  predicate Outside(w: World, library: string) {
    library in w.system || library in w.external
  }

  function Lower(s: string): string {
    if s == "" then "" else [if 'A' <= s[0] <= 'Z' then s[0] - 'A' + 'a' else s[0]] + Lower(s[1..])
  }

  /** Lower-cases the ASCII letters and nothing else. */
  lemma {:induction false} LowerMeans(s: string)
    ensures |Lower(s)| == |s|
    ensures forall i :: 0 <= i < |s| ==>
      if 'A' <= s[i] <= 'Z' then Lower(s)[i] as int == s[i] as int + 32 else Lower(s)[i] == s[i]
  {
    if s != "" {
      LowerMeans(s[1..]);
    }
  }
}
