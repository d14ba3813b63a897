/** The data model of src/model/titulacion.ts. */
module TitulacionModel {

  /** The two kinds of degree; as a string-valued enum each has a string value. */
  datatype TipoTitulacion = Grado | Master

  /** The string value of an enum member. */
  function TipoValue(t: TipoTitulacion): (s: string)
    ensures s == "Grado" || s == "Master"
    ensures t.Grado? <==> s == "Grado"
  {
    match t
    case Grado => "Grado"
    case Master => "Master"
  }

  /**
   * A titulación: nine fields, all given to the constructor and never changed
   * afterwards (a datatype value cannot be updated in place).
   */
  datatype Titulacion = Titulacion(
    codigoTitulacion: string,
    tipo: TipoTitulacion,
    nombreTitulacion: string,
    promocion: string,
    notaMedia: string,
    fechaHoraEmision: string,
    revocada: bool,
    decretoLey: string,
    descripcionRegistroFisico: string)

  /** No two members share a string value. */
  lemma TipoValueInjective(a: TipoTitulacion, b: TipoTitulacion)
    requires TipoValue(a) == TipoValue(b)
    ensures a == b
  {
  }

  /** The constructor stores each argument in the field of the same name. */
  lemma ConstructorStoresArguments(
    codigoTitulacion: string, tipo: TipoTitulacion, nombreTitulacion: string, promocion: string,
    notaMedia: string, fechaHoraEmision: string, revocada: bool, decretoLey: string,
    descripcionRegistroFisico: string)
    ensures var t := Titulacion(codigoTitulacion, tipo, nombreTitulacion, promocion, notaMedia,
                                fechaHoraEmision, revocada, decretoLey, descripcionRegistroFisico);
      t.codigoTitulacion == codigoTitulacion && t.tipo == tipo && t.nombreTitulacion == nombreTitulacion &&
      t.promocion == promocion && t.notaMedia == notaMedia && t.fechaHoraEmision == fechaHoraEmision &&
      t.revocada == revocada && t.decretoLey == decretoLey &&
      t.descripcionRegistroFisico == descripcionRegistroFisico
  {
  }
}
