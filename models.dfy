/** The rows of the database tables and the request bodies (DTOs) the
    controllers receive, as field layouts. Prices, wages and totals are integer
    cents; dates and times are integer seconds. Ids are the table keys and are
    not repeated inside the rows. */
module Models {
  import opened Common

  // --- Soft-deletable rows (they carry EstaEliminado and FechaEliminacion) ---

  datatype Contrato = Contrato(
    sueldo: Option<int>,
    fechaInicio: Option<int>,
    fechaFinal: Option<int>,
    cargo: Option<string>,
    estaEliminado: bool,
    fechaEliminacion: Option<int>,
    personaId: Option<int>)

  datatype Persona = Persona(
    nombre: Option<string>,
    apellido: Option<string>,
    cedula: Option<string>,
    telefono: Option<string>,
    direccion: Option<string>,
    cargo: Option<string>,
    estaEliminado: bool,
    fechaEliminacion: Option<int>)

  datatype Producto = Producto(
    nombre: string,
    precio: int,
    categoria: Option<string>,
    stock: Option<int>,
    estaEliminado: bool,
    fechaEliminacion: Option<int>,
    inventarioId: Option<int>)

  datatype Usuario = Usuario(
    correo: string,
    contrasenia: string,        // the stored password hash
    estaEliminado: bool,
    fechaEliminacion: Option<int>,
    personaId: int,
    rolId: Option<int>)

  // --- Rows without soft delete ---

  datatype Role = Role(nombre: string)

  datatype Venta = Venta(fecha: Option<int>, total: Option<int>, usuarioId: Option<int>)

  /** A sale line (table `detalleventa`). */
  datatype Detalleventum = Detalleventum(
    cantidad: Option<int>,
    precioUnitario: Option<int>,
    precioTotal: Option<int>,
    ventaId: Option<int>,
    productoId: Option<int>)

  /** One entry of the inventory movement log. */
  datatype MovimientoInventario = MovimientoInventario(
    fecha: Option<int>,
    tipo: string,
    cantidad: Option<int>,
    referencia: string,
    productoId: Option<int>,
    usuarioId: Option<int>)

  datatype RefreshToken = RefreshToken(
    token: string,
    expires: int,
    created: int,
    isRevoked: bool,
    usuarioId: int)

  // --- Request bodies ---

  datatype CreateDetalleVentaDto = CreateDetalleVentaDto(
    cantidad: Option<int>,
    precioUnitario: Option<int>,
    ventaId: Option<int>,
    productoId: Option<int>)

  datatype CreateVentaDto = CreateVentaDto(
    fecha: Option<int>,
    total: Option<int>,
    usuarioId: Option<int>,
    detalles: Option<seq<CreateDetalleVentaDto>>)

  datatype CreateMovimientoInventarioDto = CreateMovimientoInventarioDto(
    tipo: string,
    cantidad: Option<int>,
    referencia: string,
    productoId: Option<int>,
    usuarioId: Option<int>)

  datatype CreateProductoDto = CreateProductoDto(
    nombre: Option<string>,
    precio: int,
    categoria: Option<string>,
    stock: Option<int>,
    inventarioId: Option<int>)

  datatype CreatePersonaDto = CreatePersonaDto(
    nombre: Option<string>,
    apellido: Option<string>,
    cedula: Option<string>,
    telefono: Option<string>,
    direccion: Option<string>,
    cargo: Option<string>)

  datatype CreateUsuarioDto = CreateUsuarioDto(
    correo: string,
    contrasenia: string,
    personaId: int,
    rolId: Option<int>)

  datatype CreateContratoDto = CreateContratoDto(
    sueldo: Option<int>,
    fechaInicio: Option<int>,
    fechaFinal: Option<int>,
    cargo: Option<string>,
    personaId: Option<int>)

  datatype CreateRolDto = CreateRolDto(nombre: Option<string>)
}
