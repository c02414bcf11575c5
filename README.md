# ApiProyecto core, modelled in Dafny

ApiProyecto is the back end of a small business: products held in
inventories, an inventory movement log, sales with their lines, people,
employment contracts, users with roles, and a login that issues access and
refresh tokens. Every request works on one database context (the unit of
work). This model covers the request handlers that change that context and
the context's own save-time behaviour.

- **The context** (`EmpresaDb`).
  - The tables are the fields of the class `EmpresaDbContext`.
  - A transaction is a copy of its contents, and a rollback writes that copy back.
  - The query filter hides every row whose `EstaEliminado` flag is set on the four soft-deletable entities: contracts, people, products and users.
  - Before each save, `OnBeforeSaving` turns a pending delete of such an entity into an update that sets the flag.
  - The store invariant `ValidTables` says:
    - every key was handed out by the identity counter;
    - the unique indexes on `Usuario.Correo` and `Persona.Cedula` hold.
- **The stock ledger** (`StockLedger`).
  - A product's stock is *reconciled* with the movement log when it equals an opening stock plus the signed effect of every logged movement that names it.
  - "Entrada" and "Ajuste" add; "Salida" subtracts.
- **Sales** (`VentasController`).
  - A sale checks its user.
  - In one transaction it saves the header, then for each line:
    - checks the product and its stock;
    - decrements the stock;
    - logs a "Salida" movement referenced `VTA-<id>`;
    - stages a sale line priced quantity × unit price.
  - It then sets the header's total to the sum of the line prices and commits.
  - Any failure rolls everything back.
  - The properties proved:
    - all or nothing;
    - per-product stock arithmetic, with stock never below zero (in unbounded integers; the code's Int32 wrap-around is not modelled);
    - one movement per line;
    - the line contents;
    - the total;
    - store validity and ledger reconciliation kept.
- **Manual movements, sale lines, products, people, users, contracts and roles**: each create, update and delete.
  - Each is stated as a function from the tables before to the answer and the tables after.
  - Each is implemented by a method on the context that is proved equal to that function.
  - Each carries lemmas on what it changes, what it refuses, and which invariants it keeps. The invariants are store validity, the ledger, unique role names, well-formed contracts and existing role references.
- **Authentication** (`AuthService`).
  - Refresh-token generation (seven days of life).
  - Purging a user's expired tokens.
  - Rotation: find the first unrevoked token with the value, refuse it if expired, revoke it, purge, add a fresh one.
  - Login.
  - Proved:
    - rotation touches only the tokens of its own user;
    - a rotated-out token cannot be replayed;
    - a login adds exactly one token for its user.

Conventions: money is integer cents and times are integer seconds. One
clock value `now` stands for the request's clock. A failing save or commit
is a boolean parameter. A BCrypt hash, a random token value and the
password-hash check are parameters too. An exception that leaves a handler
is `InternalError(kind)`: the exception filter answers every such
exception with status 500.

## Model

| member | source | states |
|---|---|---|
| Common.ToLower | ApiProyecto/Controllers/RolesController.cs:81 | lower-casing keeps the length, maps A to Z onto a to z, and leaves every other character alone |
| Common.ToLowerIdempotent | ApiProyecto/Controllers/RolesController.cs:116 | lowering an already lowered name changes nothing |
| Common.SameNameIgnoringCaseTransitive | ApiProyecto/Controllers/RolesController.cs:116 | the case-insensitive name comparison is transitive |
| Common.NatToString | ApiProyecto/Controllers/VentasController.cs:156 | a natural number's text is a non-empty string of decimal digits |
| Common.IntToString | ApiProyecto/Controllers/VentasController.cs:142 | an integer's text is non-empty and starts with a minus sign exactly when the number is negative |
| Common.NatToStringInjective | ApiProyecto/Controllers/VentasController.cs:156 | different natural numbers print differently |
| Common.IntToStringInjective | ApiProyecto/Controllers/VentasController.cs:156 | different integers print differently |
| EmpresaDb.QueryFilter | ApiProyecto/Models/EmpresaDbContext.cs:81-103 | a row is visible exactly when it is in the table and not flagged, and a visible row is returned unchanged |
| EmpresaDb.EmpresaDbContext.constructor | ApiProyecto/Models/EmpresaDbContext.cs:15-18 | a context over empty tables, with the identity counter at 1, satisfies the store invariant |
| EmpresaDb.EmpresaDbContext.Write | ApiProyecto/Controllers/VentasController.cs:198-209 | after a write the context holds exactly the given tables, which is what a rollback to the transaction's copy needs |
| EmpresaDb.InterceptEntry | ApiProyecto/Models/EmpresaDbContext.cs:33-55 | a Deleted entry of a soft-deletable type becomes Modified with its flag set; every other entry is untouched; type and deletion date are never changed |
| EmpresaDb.Intercepted | ApiProyecto/Models/EmpresaDbContext.cs:33-55 | interception rewrites the change tracker entry by entry and keeps its length |
| EmpresaDb.InterceptedLeavesNoSoftDelete | ApiProyecto/Models/EmpresaDbContext.cs:33-55 | after interception no soft-deletable entity is pending a physical delete, and an entry is still Deleted exactly when it was Deleted and is not soft-deletable |
| EmpresaDb.InterceptedIdempotent | ApiProyecto/Models/EmpresaDbContext.cs:33-55 | intercepting twice gives the same entries as intercepting once |
| EmpresaDb.PendingCount | ApiProyecto/Models/EmpresaDbContext.cs:21-31 | a save writes at most as many entries as are tracked: all of them when every entry is added, modified or deleted, none when none is |
| EmpresaDb.PendingCountIntercepted | ApiProyecto/Models/EmpresaDbContext.cs:21-55 | interception turns a soft delete into an update, so the base save writes as many entries as were pending before the interceptor ran |
| EmpresaDb.OnBeforeSaving | ApiProyecto/Models/EmpresaDbContext.cs:33-55 | the loop leaves the tracked entries equal to the interception of the entries it started from |
| EmpresaDb.SaveChanges | ApiProyecto/Models/EmpresaDbContext.cs:21-25 | a synchronous save intercepts first and then writes the pending entries of the rewritten tracker, as many as were pending before |
| EmpresaDb.SaveChangesAsync | ApiProyecto/Models/EmpresaDbContext.cs:27-31 | an asynchronous save does the same interception before the base save, which writes as many entries as were pending before |
| EmpresaDb.SaveRemoval | ApiProyecto/Controllers/ProductosController.cs:186-187 | removing one entity and saving hands the base save the intercepted Deleted entry |
| StockLedger.Delta | ApiProyecto/Controllers/MovimientoInventarioController.cs:50-58 | definition: the summed signed effect on one product of the logged movements that name it (Entrada and Ajuste add, Salida subtracts) |
| StockLedger.Reconciled | ApiProyecto/Controllers/VentasController.cs:146-161 | definition of the ledger invariant: every product's stock is its opening stock plus the effect of its movements |
| StockLedger.DeltaAppend | ApiProyecto/Controllers/MovimientoInventarioController.cs:50 | the log's effect on a product is additive over appended movements |
| StockLedger.DeltaAppendOne | ApiProyecto/Controllers/VentasController.cs:161 | appending one movement changes a product's balance by that movement's effect exactly when it names the product |
| VentasController.UsuarioExists | ApiProyecto/Controllers/VentasController.cs:27-36 | definition: the user exists, is visible, and has a person row that is not flagged |
| VentasController.LineStep | ApiProyecto/Controllers/VentasController.cs:129-169 | definition of one line: a missing product id or quantity fails, a hidden, missing or stockless product or a short stock fails naming the product and its stock, otherwise the stock is decremented, a Salida referenced to the sale is logged and a priced line staged; its properties are stated by the ProcessLines lemmas |
| VentasController.ProcessLines | ApiProyecto/Controllers/VentasController.cs:127-170 | definition of the line loop: the lines are taken in order and the first failure stops it; its properties are stated by the ProcessLines lemmas and `StageLines` is proved equal to it |
| VentasController.FailureMessageNamesProductAndStock | ApiProyecto/Controllers/VentasController.cs:140-143 | the insufficient-stock message contains the product id and the stock found |
| VentasController.ReferenciaInjective | ApiProyecto/Controllers/VentasController.cs:156 | two sales give their movements the same reference only if they are the same sale |
| VentasController.QtyForUnmentioned | ApiProyecto/Controllers/VentasController.cs:127-146 | a product no line names has nothing deducted |
| VentasController.ProcessLinesStock | ApiProyecto/Controllers/VentasController.cs:135-147 | an accepted set of lines keeps the product keys, leaves every product it does not name unchanged, and lowers a named product's stock by the summed quantity of its lines; such a product was visible and had a stock |
| VentasController.ProcessLinesStockNonNegative | ApiProyecto/Controllers/VentasController.cs:139-146 | after accepted lines, each product they name has a stock, and it is not negative |
| VentasController.ProcessLinesMovements | ApiProyecto/Controllers/VentasController.cs:149-161 | accepted lines append exactly one movement per line, in order, each a Salida of that line's product and quantity with the sale's reference, user and time, and keep the earlier log |
| VentasController.ProcessLinesDetails | ApiProyecto/Controllers/VentasController.cs:163-168 | accepted lines create one sale line per request line under consecutive fresh ids, carrying its quantity, price, product and the sale id, priced quantity times unit price; older lines are kept |
| VentasController.ProcessLinesTotal | ApiProyecto/Controllers/VentasController.cs:169-173 | the running total grows by the sum of the line prices, a line without a price counting 0 |
| VentasController.MissingDataFails | ApiProyecto/Controllers/VentasController.cs:130-133 | any line without a product or a quantity makes the whole set of lines fail |
| VentasController.StockFailureNamesLine | ApiProyecto/Controllers/VentasController.cs:140-143 | a stock failure always names a product some line asks for |
| VentasController.ProcessLinesKeepsLedger | ApiProyecto/Controllers/VentasController.cs:146-161 | every stock decrement is matched by its Salida, so reconciled stock stays reconciled |
| VentasController.RecordSaleSpec | ApiProyecto/Controllers/VentasController.cs:124-209 | definition of the transaction after the header save: the lines, then the total and the commit; a failure of any of them restores the tables before the header |
| VentasController.PostVentaSpec | ApiProyecto/Controllers/VentasController.cs:103-210 | definition of the endpoint: the user check, the header save, then the lines and the commit; its properties are stated by the PostVenta lemmas |
| VentasController.PostVentaAllOrNothing | ApiProyecto/Controllers/VentasController.cs:111-209 | a sale that is not created leaves every table as it was |
| VentasController.PostVentaRejectsUnknownUser | ApiProyecto/Controllers/VentasController.cs:106-109 | a missing user, a hidden user or a user whose person is flagged gets BadRequest before anything is written |
| VentasController.PostVentaCreated | ApiProyecto/Controllers/VentasController.cs:103-197 | a created sale has an existing user and a fresh id; its header holds the date (or now), the user and the sum of its line prices; each named product loses the quantity it was sold and stays non-negative; one movement per line is appended; every unrelated table is kept |
| VentasController.PostVentaKeepsValid | ApiProyecto/Controllers/VentasController.cs:103-210 | a sale, accepted or not, keeps the store invariant |
| VentasController.PostVentaKeepsLedger | ApiProyecto/Controllers/VentasController.cs:127-180 | a sale, accepted or not, keeps every product reconciled with the movement log |
| VentasController.StageLines | ApiProyecto/Controllers/VentasController.cs:127-170 | the line loop computes exactly the staged result of processing the lines one by one, stopping at the first failing line |
| VentasController.RecordSale | ApiProyecto/Controllers/VentasController.cs:124-209 | after the header is saved, the lines, the final save and the commit leave the context in the state the sale specification gives, rolled back on any failure |
| VentasController.PostVenta | ApiProyecto/Controllers/VentasController.cs:103-210 | the endpoint's answer and the new tables are those of the sale specification, and the store invariant is kept |
| VentasController.PutVentaSpec | ApiProyecto/Controllers/VentasController.cs:217-262 | definition of the update: a missing sale is NotFound, a missing user id throws, a changed user must pass the user check, and the user and any supplied total are overwritten; its properties are stated by `PutVentaEffect` |
| VentasController.PutVentaEffect | ApiProyecto/Controllers/VentasController.cs:217-262 | an update succeeds exactly when the sale exists, a user id is sent, the user is unchanged or exists, and the save works; it then changes only that sale's user and, when one is sent, its total, so the total may stop matching the lines; a refused update changes nothing |
| VentasController.PutVenta | ApiProyecto/Controllers/VentasController.cs:217-262 | the endpoint's answer and new tables are those of the update specification, and the store invariant is kept |
| MovimientoInventarioController.PostMovimientoInventarioSpec | ApiProyecto/Controllers/MovimientoInventarioController.cs:26-92 | definition of the endpoint, in the order the code tests its cases; its properties are stated by `PostMovimientoInventarioEffect` |
| MovimientoInventarioController.PostMovimientoInventarioEffect | ApiProyecto/Controllers/MovimientoInventarioController.cs:26-92 | a movement is created exactly when both ids are sent, the product and the user are visible, the save works, and there is no quantity or the kind is Entrada or Ajuste; a missing id throws InvalidOperationException; with both ids sent, a hidden product or user, or a quantity with another kind, is BadRequest; a failing save is a server error; a created movement is appended stamped now and adds its quantity to the target product's stock (`Stock ?? 0` plus the quantity); only that product changes; a refused request changes nothing |
| MovimientoInventarioController.PostMovimientoInventarioKeepsValid | ApiProyecto/Controllers/MovimientoInventarioController.cs:26-92 | a manual movement keeps the store invariant |
| MovimientoInventarioController.PostMovimientoInventarioKeepsLedger | ApiProyecto/Controllers/MovimientoInventarioController.cs:46-69 | a manual movement keeps every product reconciled with the log |
| MovimientoInventarioController.PostMovimientoInventario | ApiProyecto/Controllers/MovimientoInventarioController.cs:26-92 | the endpoint's answer and new tables are those of the movement specification, and the store invariant is kept |
| DetallesVentaController.PostDetalleSpec | ApiProyecto/Controllers/DetallesVentaController.cs:103-137 | definition of the create endpoint, from the tables before to the answer and the tables after, in the order the code tests its cases; its properties are stated by `PostDetalleEffect` |
| DetallesVentaController.PostDetalleEffect | ApiProyecto/Controllers/DetallesVentaController.cs:103-137 | a line is created exactly when its quantity is positive, its sale exists, its product is visible, its price is given and the save works; it stores the request fields with total quantity times price under a fresh id and changes no stock, movement or sale header; a refused request changes nothing |
| DetallesVentaController.PostDetalleKeepsValid | ApiProyecto/Controllers/DetallesVentaController.cs:103-137 | creating a line keeps the store invariant |
| DetallesVentaController.PostDetalle | ApiProyecto/Controllers/DetallesVentaController.cs:103-137 | the endpoint's answer and new tables are those of the specification, and the store invariant is kept |
| DetallesVentaController.PutDetalleSpec | ApiProyecto/Controllers/DetallesVentaController.cs:143-181 | definition of the update endpoint, from the tables before to the answer and the tables after, in the order the code tests its cases; its properties are stated by `PutDetalleEffect` |
| DetallesVentaController.PutDetalleEffect | ApiProyecto/Controllers/DetallesVentaController.cs:143-181 | an update of an existing line writes the four request fields and recomputes the total only when quantity and price are both present; a missing line is NotFound; nothing else changes |
| DetallesVentaController.PutDetalle | ApiProyecto/Controllers/DetallesVentaController.cs:143-181 | the endpoint's answer and new tables are those of the update specification, and the store invariant is kept |
| DetallesVentaController.DeleteDetalleSpec | ApiProyecto/Controllers/DetallesVentaController.cs:187-207 | definition of the delete endpoint, from the tables before to the answer and the tables after, in the order the code tests its cases; its properties are stated by `DeleteDetalleEffect` |
| DetallesVentaController.DeleteDetalleEffect | ApiProyecto/Controllers/DetallesVentaController.cs:187-207 | a line is deleted exactly when the id is positive, the line exists and the save works, and then the row is physically gone and nothing else changes |
| DetallesVentaController.DeleteDetalle | ApiProyecto/Controllers/DetallesVentaController.cs:187-207 | the endpoint's answer and new tables are those of the delete specification, and the store invariant is kept |
| ProductosController.PostProductoSpec | ApiProyecto/Controllers/ProductosController.cs:79-134 | definition of the create endpoint, from the tables before to the answer and the tables after, in the order the code tests its cases; its properties are stated by `PostProductoEffect` |
| ProductosController.PostProductoEffect | ApiProyecto/Controllers/ProductosController.cs:79-134 | a product is created exactly when the request is valid, its inventory exists and the save works; it holds the request's fields under a fresh id and is visible at once; a refused request changes nothing |
| ProductosController.PostProductoKeepsValid | ApiProyecto/Controllers/ProductosController.cs:79-134 | creating a product keeps the store invariant |
| ProductosController.PostProductoKeepsLedger | ApiProyecto/Controllers/ProductosController.cs:79-134 | a new product is reconciled with its initial stock as opening balance |
| ProductosController.PostProducto | ApiProyecto/Controllers/ProductosController.cs:79-134 | the endpoint's answer and new tables are those of the specification, and the store invariant is kept |
| ProductosController.PutProductoSpec | ApiProyecto/Controllers/ProductosController.cs:137-174 | definition of the update endpoint, from the tables before to the answer and the tables after, in the order the code tests its cases; its properties are stated by `PutProductoEffect` |
| ProductosController.PutProductoEffect | ApiProyecto/Controllers/ProductosController.cs:137-174 | validation comes before the lookup; a valid request for a hidden or missing product is NotFound; an accepted update overwrites the five fields and keeps the flag, the date and every other row |
| ProductosController.PutProductoKeepsValid | ApiProyecto/Controllers/ProductosController.cs:137-174 | updating a product keeps the store invariant |
| ProductosController.PutProductoLedger | ApiProyecto/Controllers/ProductosController.cs:158-166 | after an accepted update the stock is still reconciled exactly when the request's stock equals the old stock, so any stock change through this endpoint breaks the ledger |
| ProductosController.PutProducto | ApiProyecto/Controllers/ProductosController.cs:137-174 | the endpoint's answer and new tables are those of the update specification, and the store invariant is kept |
| ProductosController.DeleteProductoSpec | ApiProyecto/Controllers/ProductosController.cs:177-190 | definition of the delete endpoint, from the tables before to the answer and the tables after, in the order the code tests its cases; its properties are stated by `DeleteProductoEffect` |
| ProductosController.DeleteProductoEffect | ApiProyecto/Controllers/ProductosController.cs:177-190 | an accepted delete keeps the row with only its flag set, hides it, and leaves every other product's visibility; a non-positive id throws ArgumentException, a hidden or missing product KeyNotFoundException, and a failing save its storage exception; a refused delete changes nothing |
| ProductosController.DeleteProductoKeepsLedger | ApiProyecto/Controllers/ProductosController.cs:177-190 | a soft delete does not touch stock or the log, so reconciliation is kept |
| ProductosController.DeleteProducto | ApiProyecto/Controllers/ProductosController.cs:177-190 | the endpoint's answer and new tables are those of the delete specification, and the store invariant is kept |
| PersonasController.PostPersonaSpec | ApiProyecto/Controllers/PersonasController.cs:75-115 | definition of the create endpoint, from the tables before to the answer and the tables after, in the order the code tests its cases; its properties are stated by `PostPersonaEffect` |
| PersonasController.PostPersonaEffect | ApiProyecto/Controllers/PersonasController.cs:75-115 | a person is created exactly when the required fields are present, no row (even a flagged one) holds the Cedula, and the save works; the new row carries the request's fields, unflagged; a refused request changes nothing |
| PersonasController.WriteKeepsUniqueCedulas | ApiProyecto/Models/Persona.cs:10 | writing a person whose Cedula no other row holds keeps the Cedula index unique |
| PersonasController.PostPersonaKeepsValid | ApiProyecto/Controllers/PersonasController.cs:75-115 | creating a person keeps the store invariant, unique Cedulas included |
| PersonasController.PostPersona | ApiProyecto/Controllers/PersonasController.cs:75-115 | the endpoint's answer and new tables are those of the specification, and the store invariant is kept |
| PersonasController.PutPersonaSpec | ApiProyecto/Controllers/PersonasController.cs:118-156 | definition of the update endpoint, from the tables before to the answer and the tables after, in the order the code tests its cases; its properties are stated by `PutPersonaEffect` |
| PersonasController.PutPersonaEffect | ApiProyecto/Controllers/PersonasController.cs:118-156 | an update is accepted exactly when the id is positive, the person is visible, both names are given, no other row holds the Cedula and the save works; it writes the six fields and keeps the flag, the date and every other row |
| PersonasController.PutPersonaKeepsValid | ApiProyecto/Controllers/PersonasController.cs:118-156 | updating a person keeps the store invariant |
| PersonasController.PutPersona | ApiProyecto/Controllers/PersonasController.cs:118-156 | the endpoint's answer and new tables are those of the update specification, and the store invariant is kept |
| PersonasController.FlagLinkedUsuarios | ApiProyecto/Controllers/PersonasController.cs:160-206 | every visible user of the person gets the flag and the date now, every other row (hidden users of the person too) is kept as it was, no user of the person stays visible, and every other user keeps its visibility |
| PersonasController.DeletePersonaSpec | ApiProyecto/Controllers/PersonasController.cs:160-206 | definition of the delete endpoint, from the tables before to the answer and the tables after, in the order the code tests its cases; its properties are stated by `DeletePersonaEffect` |
| PersonasController.DeletePersonaEffect | ApiProyecto/Controllers/PersonasController.cs:160-206 | a hidden or missing person is NotFound and a failing save or commit is a server error; an accepted delete hides the person and every user linked to it, stamping now on each, keeps every row, and leaves other people and users alone; a refused or rolled-back delete changes nothing |
| PersonasController.DeletePersonaKeepsValid | ApiProyecto/Controllers/PersonasController.cs:160-206 | deleting a person keeps the store invariant |
| PersonasController.DeletePersona | ApiProyecto/Controllers/PersonasController.cs:160-206 | the endpoint's answer and new tables are those of the delete specification, and the store invariant is kept |
| UsuariosController.PostUsuarioSpec | ApiProyecto/Controllers/UsuariosController.cs:80-145 | definition of the create endpoint, from the tables before to the answer and the tables after, in the order the code tests its cases; its properties are stated by `PostUsuarioEffect` |
| UsuariosController.PostUsuarioEffect | ApiProyecto/Controllers/UsuariosController.cs:80-145 | a user is created exactly when email and password are not blank, the person is visible, a named role exists, no user holds the email and the save works; the row stores the hash, not the password; a refused request changes nothing |
| UsuariosController.WriteKeepsUniqueCorreos | ApiProyecto/Models/Usuario.cs:10 | writing a user whose email no other row holds keeps the email index unique |
| UsuariosController.PostUsuarioKeepsValid | ApiProyecto/Controllers/UsuariosController.cs:80-145 | creating a user keeps the store invariant, unique emails included |
| UsuariosController.PostUsuario | ApiProyecto/Controllers/UsuariosController.cs:80-145 | the endpoint's answer and new tables are those of the specification, and the store invariant is kept |
| UsuariosController.PutUsuarioSpec | ApiProyecto/Controllers/UsuariosController.cs:149-190 | definition of the update endpoint, from the tables before to the answer and the tables after, in the order the code tests its cases; its properties are stated by `PutUsuarioEffect` |
| UsuariosController.PutUsuarioEffect | ApiProyecto/Controllers/UsuariosController.cs:149-190 | a hidden or missing user is NotFound; an update is accepted exactly when the user is visible, the new person row and role row exist, no other user holds the email and the save works, and is BadRequest otherwise; an accepted update maps email, person and role, replaces the hash only for a real new password and keeps the flag and date; nothing else changes |
| UsuariosController.PutUsuarioKeepsValid | ApiProyecto/Controllers/UsuariosController.cs:149-190 | updating a user keeps the store invariant |
| UsuariosController.PutUsuario | ApiProyecto/Controllers/UsuariosController.cs:149-190 | the endpoint's answer and new tables are those of the update specification, and the store invariant is kept |
| UsuariosController.DeleteUsuarioSpec | ApiProyecto/Controllers/UsuariosController.cs:194-228 | definition of the delete endpoint, from the tables before to the answer and the tables after, in the order the code tests its cases; its properties are stated by `DeleteUsuarioEffect` |
| UsuariosController.DeleteUsuarioEffect | ApiProyecto/Controllers/UsuariosController.cs:194-228 | a non-positive id is BadRequest; a hidden user, or one whose person is missing or flagged, is NotFound (the required navigation is an inner join under the person's filter); an accepted delete flags the user's person and nothing else; the user row stays visible but can no longer make sales; a refused delete changes nothing |
| UsuariosController.DeleteUsuarioIdempotent | ApiProyecto/Controllers/UsuariosController.cs:202-207 | deleting the same user again finds no user, answers NotFound and changes nothing, whether or not that save would fail |
| UsuariosController.DeleteUsuarioKeepsValid | ApiProyecto/Controllers/UsuariosController.cs:194-228 | deleting a user keeps the store invariant |
| UsuariosController.DeleteUsuario | ApiProyecto/Controllers/UsuariosController.cs:194-228 | the endpoint's answer and new tables are those of the delete specification, and the store invariant is kept |
| ContratosController.PostContratoSpec | ApiProyecto/Controllers/ContratosController.cs:111-160 | definition of the create endpoint, from the tables before to the answer and the tables after, in the order the code tests its cases; its properties are stated by `PostContratoEffect` |
| ContratosController.PostContratoEffect | ApiProyecto/Controllers/ContratosController.cs:111-160 | a contract is created exactly when wage, person id and position are valid, the person is visible and the save works; it holds the request's fields, unflagged, under a fresh id; a refused request changes nothing |
| ContratosController.PostContratoKeepsValid | ApiProyecto/Controllers/ContratosController.cs:111-160 | creating a contract keeps the store invariant |
| ContratosController.PostContrato | ApiProyecto/Controllers/ContratosController.cs:111-160 | the endpoint's answer and new tables are those of the specification, and the store invariant is kept |
| ContratosController.PutContratoSpec | ApiProyecto/Controllers/ContratosController.cs:164-213 | definition of the update endpoint, from the tables before to the answer and the tables after, in the order the code tests its cases; its properties are stated by `PutContratoEffect` |
| ContratosController.PutContratoEffect | ApiProyecto/Controllers/ContratosController.cs:164-213 | an update is accepted exactly when the request is valid, the contract is visible, its person is unchanged or visible, and the save works; a valid request for a hidden or missing contract is NotFound, and every other refusal BadRequest; it writes five fields and keeps the flag, the date and every other row |
| ContratosController.PutContratoKeepsValid | ApiProyecto/Controllers/ContratosController.cs:164-213 | updating a contract keeps the store invariant |
| ContratosController.PutContrato | ApiProyecto/Controllers/ContratosController.cs:164-213 | the endpoint's answer and new tables are those of the update specification, and the store invariant is kept |
| ContratosController.DeleteContratoSpec | ApiProyecto/Controllers/ContratosController.cs:218-242 | definition of the delete endpoint, from the tables before to the answer and the tables after, in the order the code tests its cases; its properties are stated by `DeleteContratoEffect` |
| ContratosController.DeleteContratoEffect | ApiProyecto/Controllers/ContratosController.cs:218-242 | an accepted delete keeps the row with only its flag set and hides it; a refused delete changes nothing |
| ContratosController.PostContratoKeepsWellFormed | ApiProyecto/Controllers/ContratosController.cs:111-160 | if every contract has a positive wage, a positive person id and a position, that stays so after a create |
| ContratosController.PutContratoKeepsWellFormed | ApiProyecto/Controllers/ContratosController.cs:164-213 | the same holds after an update |
| ContratosController.DeleteContratoKeepsWellFormed | ApiProyecto/Controllers/ContratosController.cs:218-242 | the same holds after a delete |
| ContratosController.DeleteContrato | ApiProyecto/Controllers/ContratosController.cs:218-242 | the endpoint's answer and new tables are those of the delete specification, and the store invariant is kept |
| RolesController.PostRolSpec | ApiProyecto/Controllers/RolesController.cs:74-99 | definition of the create endpoint, from the tables before to the answer and the tables after, in the order the code tests its cases; its properties are stated by `PostRolEffect` |
| RolesController.PostRolEffect | ApiProyecto/Controllers/RolesController.cs:74-99 | a blank name is BadRequest; a name some role has ignoring case is Conflict; otherwise the name is stored as sent under a fresh id; a refused request changes nothing |
| RolesController.WriteKeepsNamesUnique | ApiProyecto/Controllers/RolesController.cs:116 | writing a name no other role has ignoring case keeps role names unique ignoring case |
| RolesController.PostRolKeepsNamesUnique | ApiProyecto/Controllers/RolesController.cs:74-99 | creating a role keeps role names unique ignoring case |
| RolesController.PostRolKeepsValid | ApiProyecto/Controllers/RolesController.cs:74-99 | creating a role keeps the store invariant and every user's role reference |
| RolesController.PostRol | ApiProyecto/Controllers/RolesController.cs:74-99 | the endpoint's answer and new tables are those of the specification, and the store invariant is kept |
| RolesController.PutRolSpec | ApiProyecto/Controllers/RolesController.cs:102-136 | definition of the update endpoint, from the tables before to the answer and the tables after, in the order the code tests its cases; its properties are stated by `PutRolEffect` |
| RolesController.PutRolEffect | ApiProyecto/Controllers/RolesController.cs:102-136 | a rename is accepted exactly when the id is positive, the name is not blank, the role exists, no other role has the name ignoring case and the save works; a bad id or blank name is BadRequest, an unknown role NotFound, a clash Conflict and a failing save a server error; a refused rename changes nothing |
| RolesController.PutRolSameNameNoConflict | ApiProyecto/Controllers/RolesController.cs:116 | renaming a role to its own name in another letter case is never a Conflict |
| RolesController.PutRolKeepsNamesUnique | ApiProyecto/Controllers/RolesController.cs:102-136 | renaming keeps role names unique ignoring case |
| RolesController.PutRolKeepsValid | ApiProyecto/Controllers/RolesController.cs:102-136 | renaming keeps the store invariant and every user's role reference |
| RolesController.PutRol | ApiProyecto/Controllers/RolesController.cs:102-136 | the endpoint's answer and new tables are those of the update specification, and the store invariant is kept |
| RolesController.DeleteRolSpec | ApiProyecto/Controllers/RolesController.cs:139-169 | definition of the delete endpoint, from the tables before to the answer and the tables after, in the order the code tests its cases; its properties are stated by `DeleteRolEffect` |
| RolesController.DeleteRolEffect | ApiProyecto/Controllers/RolesController.cs:139-169 | a role is deleted exactly when the id is positive, it exists, no user row (even a flagged one) names it and the save works; a role in use is Conflict; the row is physically removed |
| RolesController.DeleteRolKeepsRoleRefs | ApiProyecto/Controllers/RolesController.cs:139-169 | a delete never leaves a user pointing at a missing role, and keeps names unique |
| RolesController.DeleteRolKeepsValid | ApiProyecto/Controllers/RolesController.cs:139-169 | a delete keeps the store invariant |
| RolesController.DeleteRol | ApiProyecto/Controllers/RolesController.cs:139-169 | the endpoint's answer and new tables are those of the delete specification, and the store invariant is kept |
| AuthService.GenerateRefreshToken | ApiProyecto/Services/AuthService.cs:87-99 | a new token carries the random value and is not revoked |
| AuthService.FreshTokenLifetime | ApiProyecto/Services/AuthService.cs:95-96 | a new token lives exactly seven days: it is unexpired at a later time exactly until seven days after its creation |
| AuthService.FindActive | ApiProyecto/Services/AuthService.cs:127-128 | the lookup finds the first unrevoked token with the value, and finds none exactly when no such token exists |
| AuthService.Purge | ApiProyecto/Services/AuthService.cs:116-118 | the purge keeps exactly the tokens that are not the user's expired ones, and adds none |
| AuthService.PurgeKeepsOtherUsers | ApiProyecto/Services/AuthService.cs:116-118 | purging one user's tokens leaves every other user's tokens, in order |
| AuthService.UpdateKeepsOtherUsers | ApiProyecto/Services/AuthService.cs:141-142 | revoking one user's token in place leaves every other user's tokens |
| AuthService.SaveRefreshTokenWithoutSave | ApiProyecto/Services/AuthService.cs:113-123 | staging a token drops the user's expired tokens, appends the new token owned by that user, and changes nothing else |
| AuthService.RefreshSpec | ApiProyecto/Services/AuthService.cs:124-172 | definition of the rotation: find the first unrevoked token with the value, refuse it if expired, look up its owner, revoke it, purge, add a fresh token; its properties are stated by the Refresh lemmas |
| AuthService.RefreshRejects | ApiProyecto/Services/AuthService.cs:127-133 | a value with no unrevoked token, or whose first match is expired, gets no pair and changes nothing; a live first match whose owner is hidden or missing throws, and so does a failing save; no failed rotation changes anything |
| AuthService.RefreshEffect | ApiProyecto/Services/AuthService.cs:124-172 | a successful rotation used an active, unexpired token of a visible user; it revokes that token, purges the user's expired ones and adds one fresh seven-day token for the same user |
| AuthService.RefreshTouchesOnlyItsUser | ApiProyecto/Services/AuthService.cs:124-172 | a rotation leaves the tokens of every other user as they were |
| AuthService.RefreshReplayFails | ApiProyecto/Services/AuthService.cs:127-142 | when token values are unique, a value that has been rotated once can never be rotated again |
| AuthService.RefreshAccessTokenAsync | ApiProyecto/Services/AuthService.cs:124-172 | the rotation's answer and new tables are those of the rotation specification, and the store invariant is kept |
| AuthService.LoginMatch | ApiProyecto/Services/AuthService.cs:52-56 | definition of the login query: a visible user with the email whose person row exists and is not flagged |
| AuthService.LoginMatchUnique | ApiProyecto/Services/AuthService.cs:52-56 | thanks to the unique email index, the login query finds at most one user |
| AuthService.LoginAsWrittenSpec | ApiProyecto/Services/AuthService.cs:48-84 | definition of the login as written: the user the query finds gets a pair unless the save fails, with no look at the password |
| AuthService.LoginIgnoresPassword | ApiProyecto/Services/AuthService.cs:48-84 | as written, the login's outcome is the same for any two passwords |
| AuthService.LoginAsWrittenAcceptsAnyPassword | ApiProyecto/Services/AuthService.cs:48-84 | as written, a known email whose person is visible gets a token pair with any password |
| AuthService.LoginSpec | ApiProyecto/Services/AuthService.cs:48-84 | definition of the login with the password check: the same steps, and a password that does not verify gets no pair |
| AuthService.LoginRejectsWrongPassword | ApiProyecto/Services/AuthService.cs:48-84 | with the password check, a password that does not verify against the stored hash gets no pair and changes nothing |
| AuthService.LoginAgreesWhenPasswordVerifies | ApiProyecto/Services/AuthService.cs:48-84 | with a password that verifies, the corrected login behaves exactly as the login as written |
| AuthService.LoginEffect | ApiProyecto/Services/AuthService.cs:48-84 | an unknown email, or one whose user's person is flagged, gets no pair; a successful login is for the email's user, whose person is not flagged and whose password verified; it purges that user's expired tokens and adds one fresh token; any other outcome changes nothing |
| AuthService.LoginAddsOneToken | ApiProyecto/Services/AuthService.cs:68-73 | a successful login adds exactly one token for its user and leaves every other user's tokens |
| AuthService.LoginAsync | ApiProyecto/Services/AuthService.cs:48-84 | the login's answer and new tables are those of the corrected login specification, and the store invariant is kept |

## Findings

| source | as written | input that shows it | evidently intended | confidence | as-written member | corrected member |
|---|---|---|---|---|---|---|
| ApiProyecto/Services/AuthService.cs:48-84 | `LoginAsync` never looks at its `password` argument. No caller checks it either: the login endpoint only tests the returned JWT for null. So an email alone logs in. | any email of a user whose person is not flagged, with any wrong password and a working save: a JWT and a fresh refresh token are issued | issue tokens only when the password verifies against the stored BCrypt hash (the hash that `PostUsuario` and `PutUsuario` store), and answer "no pair" otherwise | high, not executed | AuthService.LoginAsWrittenAcceptsAnyPassword | AuthService.LoginRejectsWrongPassword |

`AuthService.LoginAsWrittenSpec` states the code as written. `AuthService.LoginSpec` adds the check; `AuthService.LoginAsync` implements that corrected version.

## Where the code falls short of what it is meant to do

The model follows the code in each case:

- **Quantities are not checked at sale or movement time.**
  - A sale line's quantity, and a manual movement's quantity, are meant to be positive.
  - Neither the sale endpoint nor the movement endpoint checks it. Within the Int32 range, a sale line with a negative quantity raises the product's stock and logs a Salida with that negative quantity.
  - The ledger stays reconciled this way, and the model proves that, in unbounded integers.
  - Only the stand-alone sale-line endpoint refuses a non-positive quantity.
- **Kinds are not validated.** A manual movement without a quantity is accepted with any kind. A quantity with a kind other than Entrada or Ajuste is refused.
- **No concurrency handling.** Contention on a stock is meant to be retried or answered as a conflict. The code does neither: the sale runs in one transaction with no retry.
- **No dedicated answer for a bad line or a bad user.** A malformed line or an unknown user is meant to have its own error kind. The code answers BadRequest with a message.
- **Stock written outside the ledger.** Updating a product overwrites its stock directly. `ProductosController.PutProductoLedger` proves that this keeps the log reconciled only when the stock is unchanged.
- **Sale updates break totals.** An update of a sale can set a total that differs from its lines.

## Left out

- HTTP plumbing is not modelled, because only a request's answer kind and its effect on the tables concern this model. That covers:
  - routing, authorisation attributes and model binding;
  - response bodies and mapped output DTOs;
  - every message except the sale's failure message.
- The read-only endpoints (`GetX`) are not modelled: they change nothing.
- `DeleteVenta` and `InventarioController` are not part of this model; they are plain single-row deletes and writes outside the sale and stock core.
- `AuthController` is not part of this model, because it only forwards to the service.
- `SaveRefreshToken`, the saving variant, is not modelled: nothing in the modelled code calls it.
- `GenerateJwtToken` is not modelled, because signing and cryptography are left out: an access token is represented by the user id it is issued for.
- Random token values, BCrypt hashing and BCrypt verification are parameters, for the same reason.
- Concurrency is not modelled, because the model is sequential: parallel requests, isolation levels and the `DbUpdateConcurrencyException` branches of the update endpoints.
- Foreign keys are enforced only on user writes and when deleting a role, because these are the only places where the code relies on the database refusing a write. The other foreign keys (sale to user, line to sale and product, and so on) are not made into invariants.
- String comparisons are exact and lower-casing covers only A to Z, because Unicode collation and full case mapping are outside the model. The database collation `utf8mb4_0900_ai_ci`, which ignores case and accents, is not modelled.
- Column length limits are not modelled.
- Amounts are integers, because floating point is outside the model. Prices, totals and wages are `double`/`decimal` in the code, so rounding is not modelled.
- One clock value `now` is used, because the model has no clock. The code mixes `DateTime.Now` and `DateTime.UtcNow`, so time-zone offsets between them are not modelled.
- The identity columns are modelled as one shared counter, which a rollback also restores; a real auto-increment column is not rolled back.
- A manual movement's id is its position in the log. The movement table's own identity column is not modelled.
- Save and commit failures are boolean inputs. The model does not say why a save fails. A caught `DbUpdateException` is BadRequest, and an uncaught one is `InternalError(StorageException)`.
- The required navigation from a user to its person (`.IsRequired()` at ApiProyecto/Models/EmpresaDbContext.cs:156-160) is modelled as Entity Framework joins it when a query includes it: an inner join that applies the person's query filter. So `DeleteUsuario` and `LoginAsync` do not find a user whose person is missing or flagged, and the code's later checks of the person's flag in both are never reached. Queries that do not include the person look users up by their own filter only.
- Stock and quantities are unbounded integers. `Stock` and `Cantidad` are 32-bit `int?` in the code, and `producto.Stock -= Cantidad` (VentasController.cs:146) and `(Stock ?? 0) + Cantidad` (MovimientoInventarioController.cs:57) wrap around in unchecked Int32 arithmetic. The lemmas below therefore hold only while every stock and every intermediate result stays within the Int32 range. For example, a sale line of quantity -2147483648 on a stock of 0 passes the stock check and stores -2147483648 in the code, but 2147483648 in the model.
- ProcessLinesStock: the stock after the lines is old stock minus the summed quantities in unbounded integers; the code's Int32 wrap-around is not modelled, so this holds only within the Int32 range.
- ProcessLinesStockNonNegative: "never below zero" is proved in unbounded integers; in the code a wrapped subtraction (a sale line of quantity -2147483648) can leave a negative stock, so this holds only within the Int32 range.
- ProcessLinesKeepsLedger: reconciliation is proved in unbounded integers; an Int32 wrap of a stock would break it in the code, so this holds only within the Int32 range.
- PostVentaCreated: its non-negative stocks and per-product arithmetic are in unbounded integers and hold only within the Int32 range.
- PostVentaKeepsLedger: reconciliation after a sale is proved in unbounded integers and holds only within the Int32 range.
- PostMovimientoInventarioEffect: the new stock `(Stock ?? 0) + quantity` is unbounded; the code wraps at the Int32 bounds (an Entrada of 1 on a stock of 2147483647), so the stated stock holds only within the Int32 range.
- PostMovimientoInventarioKeepsLedger: reconciliation after a manual movement is proved in unbounded integers and holds only within the Int32 range.
- `DeletePersona` flags every visible user linked to the person. In the database the link is one-to-one.
- `PutPersona` checks the deletion flag after a lookup that already hides flagged rows, so that check can never fail; the model folds the two conditions into one.
- `ProductosController.PostProductoKeepsLedger` assumes that no earlier movement names the new product's id. The model's ids come from one counter, and the log does not record ids handed out before.
