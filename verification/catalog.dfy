/**
 * `fetchTitulacionesFromUVa` of src/utils/func.ts: a fixed catalog that
 * stands in for the university's registry. Each record is the object
 * literal as written, with `tipo` as a plain string.
 */
module Catalog {
  import opened TitulacionModel

  datatype UvaRecord = UvaRecord(
    nombreTitulacion: string,
    tipo: string,
    codigoTitulacion: string,
    notaMedia: string,
    fechaHora: string,
    decretoLey: string,
    descripcionRegistroFisico: string,
    fechaHoraEmision: string,
    promocion: string)

  function FetchTitulacionesFromUVa(): (r: seq<UvaRecord>)
    ensures |r| == 3
  {
    [ UvaRecord("Ingenieria Industrial", "Grado", "81639", "6", "1709153385", "a", "b",
                "2021-07-12T12:00:00Z", "2021"),
      UvaRecord("Filosofia", "Grado", "82639", "5.9", "1709153385", "a", "b",
                "2021-07-12T12:00:00Z", "2017"),
      UvaRecord("Ingenieria Informatica", "Grado", "83639", "8.6", "1709153385", "a", "b",
                "2021-07-12T12:00:00Z", "2020") ]
  }

  /** The catalog has exactly the codes 81639, 82639 and 83639, in that order, no two alike. */
  lemma CatalogCodes()
    ensures var c := FetchTitulacionesFromUVa();
      c[0].codigoTitulacion == "81639" && c[1].codigoTitulacion == "82639" &&
      c[2].codigoTitulacion == "83639"
    ensures var c := FetchTitulacionesFromUVa();
      forall i, j :: 0 <= i < j < |c| ==> c[i].codigoTitulacion != c[j].codigoTitulacion
  {
  }

  /** The one record with code 83639 is Ingenieria Informatica, a Grado of the 2020 promotion with mean grade 8.6. */
  lemma Record83639()
    ensures var c := FetchTitulacionesFromUVa();
      exists i :: 0 <= i < |c| && c[i].codigoTitulacion == "83639"
    ensures var c := FetchTitulacionesFromUVa();
      forall i :: 0 <= i < |c| && c[i].codigoTitulacion == "83639" ==>
        c[i].nombreTitulacion == "Ingenieria Informatica" && c[i].notaMedia == "8.6" &&
        c[i].tipo == "Grado" && c[i].promocion == "2020"
  {
    var c := FetchTitulacionesFromUVa();
    assert c[2].codigoTitulacion == "83639";
  }

  /** Every catalog record is of the `GRADO` kind: its `tipo` string is that enum member's value. */
  lemma CatalogTiposAreGrado()
    ensures forall r :: r in FetchTitulacionesFromUVa() ==> r.tipo == TipoValue(Grado)
  {
  }
}
