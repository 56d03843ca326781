/** The rows an empty table is seeded with, and the consistency facts they satisfy. */
module Seed {
  import opened Wrappers
  import opened Entities

  const InitialSectors: seq<Sector> := [
    Sector("sector-1", "TI", "Tecnologia da Informação"),
    Sector("sector-2", "RH", "Recursos Humanos"),
    Sector("sector-3", "Financeiro", "Departamento Financeiro")
  ]

  const InitialUsers: seq<User> := [
    User(1, "Administrador", "admin@empresa.com", Some("admin123"), "admin", "TI"),
    User(2, "John Doe", "john@example.com", Some("password"), "user", "RH"),
    User(3, "Jane Smith", "jane@example.com", Some("password"), "user", "Financeiro")
  ]

  const InitialStatuses: seq<Status> := [
    Status("status-1", "Pendente", "yellow"),
    Status("status-2", "Em Andamento", "blue"),
    Status("status-3", "Aguardando Peças", "purple"),
    Status("status-4", "Entregue", "green"),
    Status("status-5", "Cancelado", "red")
  ]

  const InitialFormFields: seq<FormField> := [
    FormField("orderNumber", "Nº do Pedido", TextInput, true, true, true, Absent),
    FormField("requestDate", "Data da Solicitação", DateInput, true, true, true, Absent),
    FormField("sector", "Setor", SelectInput, true, true, true, Absent),
    FormField("supplier", "Fornecedor", TextInput, true, true, true, Absent),
    FormField("deliveryDate", "Previsão de Entrega", DateInput, true, false, true, Absent),
    FormField("status", "Status", SelectInput, true, true, true, Absent),
    FormField("responsible", "Responsável", SelectInput, true, true, true, Absent),
    FormField("notes", "Observações", TextareaInput, false, false, false, Absent)
  ]

  const InitialRequests: seq<Request> := [
    Request(1, "PED-001", "2023-10-01", "TI", "Fornecedor A", "2023-10-10", "Entregue", "Administrador",
            [RequestItem("item-1", "Mouse Gamer", 5, "Entregue"),
             RequestItem("item-2", "Teclado Mecânico", 5, "Entregue")],
            Some(map["notes" := "Urgente"])),
    Request(2, "PED-002", "2023-10-02", "RH", "Fornecedor B", "2023-10-15", "Em Andamento", "John Doe",
            [RequestItem("item-3", "Cadeira de Escritório", 2, "Em Andamento")],
            None),
    Request(3, "PED-003", "2023-10-03", "Financeiro", "Fornecedor C", "2023-10-20", "Pendente", "Jane Smith",
            [RequestItem("item-4", "Calculadora HP 12C", 10, "Pendente")],
            Some(map["notes" := "Compra para o time novo."]))
  ]

  /** The ids of the standard fields, which must always exist. */
  const StandardFieldIds: seq<string> :=
    ["orderNumber", "requestDate", "sector", "supplier", "deliveryDate", "status", "responsible"]

  /** True when some status carries the name `name`. */
  predicate NamesAStatus(statuses: seq<Status>, name: string)
  {
    exists j :: 0 <= j < |statuses| && statuses[j].name == name
  }

  /** Sector, user, status and request ids are pairwise distinct within each table. */
  lemma SeedIdsDistinct()
    ensures forall i, j :: 0 <= i < j < |InitialSectors| ==> InitialSectors[i].id != InitialSectors[j].id
    ensures forall i, j :: 0 <= i < j < |InitialUsers| ==> InitialUsers[i].id != InitialUsers[j].id
    ensures forall i, j :: 0 <= i < j < |InitialStatuses| ==> InitialStatuses[i].id != InitialStatuses[j].id
    ensures forall i, j :: 0 <= i < j < |InitialRequests| ==> InitialRequests[i].id != InitialRequests[j].id
    ensures forall i, j :: 0 <= i < j < |InitialFormFields| ==> InitialFormFields[i].id != InitialFormFields[j].id
  {
  }

  /** Status names are distinct, so looking a status up by name is unambiguous. */
  lemma SeedStatusNamesDistinct()
    ensures forall i, j :: 0 <= i < j < |InitialStatuses| ==> InitialStatuses[i].name != InitialStatuses[j].name
  {
  }

  /** Every request status and every item status of the sample requests names a seeded status. */
  lemma SeedRequestStatusesResolve()
    ensures forall i :: 0 <= i < |InitialRequests| ==> NamesAStatus(InitialStatuses, InitialRequests[i].status)
    ensures forall i, k :: 0 <= i < |InitialRequests| && 0 <= k < |InitialRequests[i].items| ==>
      NamesAStatus(InitialStatuses, InitialRequests[i].items[k].status)
  {
    assert InitialStatuses[0].name == "Pendente";
    assert InitialStatuses[1].name == "Em Andamento";
    assert InitialStatuses[3].name == "Entregue";
  }

  /**
   * The seven standard fields are seeded standard and active; `notes` is the one
   * non-standard field and it starts inactive; no seeded field carries `isVisibleInList`.
   */
  lemma SeedFormFieldsShape()
    ensures forall k :: 0 <= k < |StandardFieldIds| ==>
      exists i :: 0 <= i < |InitialFormFields| && InitialFormFields[i].id == StandardFieldIds[k]
        && InitialFormFields[i].isStandard && InitialFormFields[i].isActive
    ensures forall i :: 0 <= i < |InitialFormFields| && !InitialFormFields[i].isStandard ==>
      InitialFormFields[i].id == "notes" && !InitialFormFields[i].isActive
    ensures forall i :: 0 <= i < |InitialFormFields| ==> InitialFormFields[i].isVisibleInList == Absent
  {
    assert InitialFormFields[0].id == StandardFieldIds[0];
    assert InitialFormFields[1].id == StandardFieldIds[1];
    assert InitialFormFields[2].id == StandardFieldIds[2];
    assert InitialFormFields[3].id == StandardFieldIds[3];
    assert InitialFormFields[4].id == StandardFieldIds[4];
    assert InitialFormFields[5].id == StandardFieldIds[5];
    assert InitialFormFields[6].id == StandardFieldIds[6];
  }

  /** Exactly one seeded account is an administrator: admin@empresa.com with password admin123. */
  lemma SeedSingleAdmin()
    ensures forall i :: 0 <= i < |InitialUsers| && InitialUsers[i].role == "admin" ==> i == 0
    ensures InitialUsers[0].role == "admin"
    ensures InitialUsers[0].email == "admin@empresa.com" && InitialUsers[0].password == Some("admin123")
  {
  }
}
