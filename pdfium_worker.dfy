/**
 * PdfiumWorkerCoordinator: the renderer that hands a PDF path to a worker
 * process. It refuses passwords before touching the pool, sends the path and
 * a single DPI (300 when none was requested), and returns exactly the one
 * image decoded from the worker's bytes, or the decoder's error when those
 * bytes are not an image. The buffer overload is unimplemented.
 */
module PdfiumWorker {
  import opened Wrappers
  import opened Images
  import PdfiumRenderer

  /** The only DPI a worker is ever sent when the request names none. */
  const DefaultWorkerDpi: real := 300.0

  datatype WorkerError<+E> =
    | PasswordUnsupported   // InvalidOperationException
    | NotImplemented        // NotImplementedException
    | DecodeFailed(cause: E)  // what imageContext.Load throws on the worker's reply

  /** One job dispatched through WorkerPool.Use: the arguments of worker.Service.RenderPdf. */
  datatype RenderPdfJob = RenderPdfJob(path: string, dpi: real)

  /** `renderSize.Dpi ?? 300`: the width and height of the request are never read. */
  function TransmittedDpi(size: PdfiumRenderer.PdfRenderSize): (dpi: real)
    ensures size.dpi.Some? ==> dpi == size.dpi.value
    ensures size.dpi.None? ==> dpi == DefaultWorkerDpi
  {
    size.dpi.GetOr(DefaultWorkerDpi)
  }

  /** Two requests that agree on their DPI reach the worker identically, whatever pixel size they name. */
  lemma TransmittedDpiIgnoresPixelSize(a: PdfiumRenderer.PdfRenderSize, b: PdfiumRenderer.PdfRenderSize)
    requires a.dpi == b.dpi
    ensures TransmittedDpi(a) == TransmittedDpi(b)
  {
  }

  /**
   * The worker pool seen from the coordinator: each Use runs one RenderPdf job
   * on some worker; `service` stands for what the worker process answers, and
   * `uses` logs every job dispatched.
   */
  class WorkerPool {
    ghost var uses: seq<RenderPdfJob>
    const service: (string, real) -> seq<byte>

    constructor (service: (string, real) -> seq<byte>)
      ensures this.service == service && uses == []
    {
      this.service := service;
      uses := [];
    }

    /** `_workerPool.Use(worker => worker.Service.RenderPdf(path, dpi))` */
    method UseRenderPdf(path: string, dpi: real) returns (bytes: seq<byte>)
      modifies this
      ensures uses == old(uses) + [RenderPdfJob(path, dpi)]
      ensures bytes == service(path, dpi)
    {
      uses := uses + [RenderPdfJob(path, dpi)];
      bytes := service(path, dpi);
    }
  }

  class PdfiumWorkerCoordinator {
    const workerPool: WorkerPool

    constructor (workerPool: WorkerPool)
      ensures this.workerPool == workerPool
    {
      this.workerPool := workerPool;
    }

    /**
     * Render(path): with a password, fails before the pool is used; otherwise
     * exactly one job carrying the path and the transmitted DPI, and then
     * exactly one image, the one `load` (imageContext.Load) decodes from the
     * worker's bytes, or `load`'s error when it cannot decode them. The job is
     * dispatched either way, since the decode runs inside it.
     */
    method RenderFromPath<I, E>(path: string, size: PdfiumRenderer.PdfRenderSize, password: Option<string>,
                                load: seq<byte> -> Result<I, E>)
      returns (r: Result<seq<I>, WorkerError<E>>)
      modifies workerPool
      ensures password.Some? ==> r == Failure(PasswordUnsupported) && workerPool.uses == old(workerPool.uses)
      ensures password.None? ==>
                workerPool.uses == old(workerPool.uses) + [RenderPdfJob(path, TransmittedDpi(size))]
      ensures password.None? ==>
                var decoded := load(workerPool.service(path, TransmittedDpi(size)));
                && (decoded.Success? ==> r == Success([decoded.value]))
                && (decoded.Failure? ==> r == Failure(DecodeFailed(decoded.error)))
    {
      if password.Some? {
        return Failure(PasswordUnsupported);
      }
      var bytes := workerPool.UseRenderPdf(path, TransmittedDpi(size));
      var decoded := load(bytes);
      if decoded.Failure? {
        return Failure(DecodeFailed(decoded.error));
      }
      r := Success([decoded.value]);
    }

    /** Render(buffer, length): not implemented, whatever the arguments. */
    method RenderFromBuffer<I, E>(buffer: seq<byte>, length: int, size: PdfiumRenderer.PdfRenderSize,
                                  password: Option<string>)
      returns (r: Result<seq<I>, WorkerError<E>>)
      ensures r == Failure(NotImplemented)
    {
      r := Failure(NotImplemented);
    }
  }
}
