/** The two record shapes the scripts read: raw stock movements and movements
    that an upstream step has already scored with a Z-score and a severity label. */
module Movements {
  import opened Optional

  /** Operation labels of the `tipo` column. */
  const Entrada: string := "entrada"
  const Saida: string := "saida"

  /** Labels of the `severidade` column ("Normal", "Atenção", "Alerta", "Crítico");
      `Unlabelled` stands for a missing cell or any other text. */
  datatype Severity = Normal | Atencao | Alerta | Critico | Unlabelled

  /** One row of the raw movement table: hospital unit, material, operation type,
      signed quantity and the person responsible. Quantity and owner may be missing. */
  datatype Movement = Movement(
    unit: string,
    material: string,
    kind: string,
    quantity: Option<real>,
    owner: Option<string>)

  /** One row of the scored table: the upstream Z-score and severity label are taken as given. */
  datatype ScoredMovement = ScoredMovement(
    material: string,
    unit: string,
    quantity: Option<real>,
    zScore: real,
    severity: Severity)
}
